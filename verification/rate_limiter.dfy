/** The token bucket limiter over real time: eviction is invisible and admission is bounded, exactly when a
    bucket can hold a whole token. */
module RateLimiting {

  datatype Bucket = Bucket(tokens: real, lastRefill: real)

  datatype Settings = Settings(rate: real, burst: real)

  /** What the constructor keeps: non-positive arguments become 1. */
  ghost predicate Sane(s: Settings)
  {
    s.rate > 0.0 && s.burst > 0.0
  }

  type Buckets = map<string, Bucket>

  function Min(a: real, b: real): real { if b < a then b else a }

  /** The tokens that accrue from `t` to `u`. */
  function Earned(s: Settings, t: real, u: real): real
  {
    (u - t) * s.rate
  }

  lemma EarnedLaws(s: Settings, t: real, u: real, v: real)
    requires Sane(s) && t <= u <= v
    ensures Earned(s, t, u) >= 0.0 && Earned(s, t, t) == 0.0
    ensures Earned(s, t, v) == Earned(s, t, u) + Earned(s, u, v)
  {
    assert (v - t) == (u - t) + (v - u);
    assert (v - t) * s.rate == (u - t) * s.rate + (v - u) * s.rate;
  }

  function Refilled(s: Settings, b: Bucket, now: real): real
  {
    b.tokens + Earned(s, b.lastRefill, now)
  }

  /** `allow`: the answer and the buckets afterwards. */
  function Allow(s: Settings, m: Buckets, key: string, now: real): (bool, Buckets)
  {
    if key !in m then (true, m[key := Bucket(s.burst - 1.0, now)])
    else
      var tokens := Min(s.burst, Refilled(s, m[key], now));
      if tokens >= 1.0 then (true, m[key := Bucket(tokens - 1.0, now)])
      else (false, m[key := Bucket(tokens, now)])
  }

  /** `evict_idle`. */
  function EvictIdle(s: Settings, m: Buckets, now: real): Buckets
  {
    map k | k in m && Refilled(s, m[k], now) < s.burst :: m[k]
  }

  class TokenBucketLimiter {
    const settings: Settings
    var buckets: Buckets

    constructor (rate: real, burst: real)
      ensures Sane(settings) && buckets == map[]
      ensures settings == Settings(if rate > 0.0 then rate else 1.0, if burst > 0.0 then burst else 1.0)
    {
      settings := Settings(if rate > 0.0 then rate else 1.0, if burst > 0.0 then burst else 1.0);
      buckets := map[];
    }

    /** `now` is the steady clock. A known key is admitted exactly when it has a token, a new one always; an admitted
        call costs its key one token, and otherwise nobody's tokens change. */
    method AllowKey(key: string, now: real) returns (allowed: bool)
      requires Sane(settings)
      modifies this
      ensures allowed <==> key !in old(buckets) || Available(settings, old(buckets), key, now) >= 1.0
      ensures forall k :: Available(settings, buckets, k, now)
                == Available(settings, old(buckets), k, now) - (if k == key && allowed then 1.0 else 0.0)
      ensures key in buckets && buckets[key].lastRefill == now && buckets - {key} == old(buckets) - {key}
      ensures (allowed, buckets) == Allow(settings, old(buckets), key, now)
    {
      AllowSpends(settings, buckets, key, now);
      if key !in buckets {
        buckets := buckets[key := Bucket(settings.burst - 1.0, now)];
        return true;
      }
      var b := buckets[key];
      var elapsed := now - b.lastRefill;
      assert b.tokens + elapsed * settings.rate == Refilled(settings, b, now);
      b := b.(tokens := Min(settings.burst, b.tokens + elapsed * settings.rate));
      b := b.(lastRefill := now);
      allowed := b.tokens >= 1.0;
      if allowed {
        b := b.(tokens := b.tokens - 1.0);
      }
      buckets := buckets[key := b];
    }

    method Evict(now: real)
      modifies this
      ensures buckets == EvictIdle(settings, old(buckets), now)
      ensures forall k :: k in buckets <==>
                k in old(buckets)
                && old(buckets)[k].tokens + settings.rate * (now - old(buckets)[k].lastRefill) < settings.burst
      ensures forall k | k in buckets :: buckets[k] == old(buckets)[k]
    {
      var todo := buckets.Keys;
      while todo != {}
        invariant todo <= old(buckets).Keys
        invariant buckets == map k | k in old(buckets) && (k in todo || Refilled(settings, old(buckets)[k], now) < settings.burst) :: old(buckets)[k]
        decreases |todo|
      {
        var key :| key in todo;
        todo := todo - {key};
        var b := buckets[key];
        var elapsed := now - b.lastRefill;
        if b.tokens + elapsed * settings.rate >= settings.burst {
          buckets := buckets - {key};
        }
      }
      forall k | k in old(buckets)
        ensures Refilled(settings, old(buckets)[k], now)
             == old(buckets)[k].tokens + settings.rate * (now - old(buckets)[k].lastRefill)
      {
        EarnedIs(settings, old(buckets)[k].lastRefill, now);
      }
      hide Refilled, Earned;
    }
  }

  // --- Runs ---------------------------------------------------------------------------------------

  datatype Event = Call(key: string, time: real) | Sweep(time: real)

  /** Clocks are monotone. */
  ghost predicate Ordered(events: seq<Event>, from: real)
    decreases |events|
  {
    events != [] ==> from <= events[0].time && Ordered(events[1..], events[0].time)
  }

  function After(s: Settings, m: Buckets, e: Event): Buckets
  {
    if e.Call? then Allow(s, m, e.key, e.time).1 else EvictIdle(s, m, e.time)
  }

  /** The answers of a run: one per call, with the key it was given to. */
  function Answers(s: Settings, m: Buckets, events: seq<Event>): seq<(string, bool)>
    decreases |events|
  {
    if events == [] then []
    else
      (if events[0].Call? then [(events[0].key, Allow(s, m, events[0].key, events[0].time).0)] else [])
      + Answers(s, After(s, m, events[0]), events[1..])
  }

  function Calls(events: seq<Event>): seq<Event>
  {
    if events == [] then []
    else (if events[0].Call? then [events[0]] else []) + Calls(events[1..])
  }

  // --- What a bucket is worth -----------------------------------------------------------------------

  /** The tokens a key can spend at time `now`: a key without a bucket is worth a full one. */
  function Available(s: Settings, m: Buckets, key: string, now: real): real
  {
    if key !in m then s.burst else Min(s.burst, Refilled(s, m[key], now))
  }

  /** No bucket was touched in the future, and none is overdrawn. */
  ghost predicate Sound(s: Settings, m: Buckets, now: real)
  {
    forall k | k in m :: m[k].lastRefill <= now && 0.0 <= m[k].tokens
  }

  lemma RefillAdds(s: Settings, b: Bucket, t: real, u: real)
    ensures Refilled(s, b, u) == Refilled(s, b, t) + Earned(s, t, u)
  {
    assert (u - b.lastRefill) == (t - b.lastRefill) + (u - t);
    assert (u - b.lastRefill) * s.rate == (t - b.lastRefill) * s.rate + (u - t) * s.rate;
  }

  /** Waiting adds tokens at the rate, up to a full bucket. */
  lemma AvailableLater(s: Settings, m: Buckets, key: string, t: real, u: real)
    requires Sane(s) && t <= u
    ensures Available(s, m, key, u) == Min(s.burst, Available(s, m, key, t) + Earned(s, t, u))
  {
    hide Earned, Refilled;
    EarnedLaws(s, t, u, u);
    if key in m {
      RefillAdds(s, m[key], t, u);
    }
  }

  /** Two limiters are worth the same to every key. */
  ghost predicate SameWorth(s: Settings, m: Buckets, m': Buckets, now: real)
  {
    forall k :: Available(s, m, k, now) == Available(s, m', k, now)
  }

  lemma SameWorthLater(s: Settings, m: Buckets, m': Buckets, t: real, u: real)
    requires Sane(s) && t <= u && SameWorth(s, m, m', t)
    ensures SameWorth(s, m, m', u)
  {
    hide Available;
    forall k
      ensures Available(s, m, k, u) == Available(s, m', k, u)
    {
      AvailableLater(s, m, k, t, u);
      AvailableLater(s, m', k, t, u);
      assert Available(s, m, k, t) == Available(s, m', k, t);
    }
  }

  /** An admitted call costs its key one token, a refused one nothing, and other keys nothing. */
  lemma AllowSpends(s: Settings, m: Buckets, key: string, now: real)
    requires Sane(s)
    ensures Allow(s, m, key, now).0 <==> key !in m || Available(s, m, key, now) >= 1.0
    ensures forall k :: Available(s, Allow(s, m, key, now).1, k, now)
              == Available(s, m, k, now) - (if k == key && Allow(s, m, key, now).0 then 1.0 else 0.0)
  {
    hide Earned;
    EarnedLaws(s, now, now, now);
    var m' := Allow(s, m, key, now).1;
    assert Refilled(s, m'[key], now) == m'[key].tokens;
  }

  /** With room for a whole token, a call is admitted exactly when a token is available, and costs it one. */
  lemma AllowSpendsOne(s: Settings, m: Buckets, key: string, now: real)
    requires Sane(s) && s.burst >= 1.0
    ensures Allow(s, m, key, now).0 <==> Available(s, m, key, now) >= 1.0
    ensures forall k :: Available(s, Allow(s, m, key, now).1, k, now)
              == Available(s, m, k, now) - (if k == key && Allow(s, m, key, now).0 then 1.0 else 0.0)
  {
    AllowSpends(s, m, key, now);
  }

  lemma EvictKeepsWorth(s: Settings, m: Buckets, now: real)
    ensures SameWorth(s, m, EvictIdle(s, m, now), now)
  {
    hide Refilled;
  }

  // --- Eviction is invisible --------------------------------------------------------------------------

  lemma {:induction false} AnswersDependOnWorth(s: Settings, m: Buckets, m': Buckets, events: seq<Event>, now: real)
    requires Sane(s) && s.burst >= 1.0
    requires Ordered(events, now) && SameWorth(s, m, m', now)
    ensures Answers(s, m, events) == Answers(s, m', Calls(events))
    decreases |events|
  {
    hide Allow, EvictIdle, Available, Earned;
    if events != [] {
      var e := events[0];
      SameWorthLater(s, m, m', now, e.time);
      if e.Call? {
        AllowSpendsOne(s, m, e.key, e.time);
        AllowSpendsOne(s, m', e.key, e.time);
        assert Available(s, m, e.key, e.time) == Available(s, m', e.key, e.time);
        assert SameWorth(s, After(s, m, e), After(s, m', e), e.time);
        assert Calls(events)[1..] == Calls(events[1..]);
        AnswersDependOnWorth(s, After(s, m, e), After(s, m', e), events[1..], e.time);
      } else {
        EvictKeepsWorth(s, m, e.time);
        assert SameWorth(s, After(s, m, e), m', e.time);
        assert Calls(events) == Calls(events[1..]);
        AnswersDependOnWorth(s, After(s, m, e), m', events[1..], e.time);
      }
    }
  }

  /** Sweeps at any times leave every answer of the run as it would be without them. */
  ghost predicate EvictionInvisible(s: Settings)
  {
    forall events: seq<Event>, start: real :: Ordered(events, start) ==>
      Answers(s, map[], events) == Answers(s, map[], Calls(events))
  }

  /** Eviction is invisible in all runs exactly when a bucket holds a whole token. */
  lemma EvictionInvisibleIff(s: Settings)
    requires Sane(s)
    ensures EvictionInvisible(s) <==> s.burst >= 1.0
  {
    if s.burst >= 1.0 {
      forall events: seq<Event>, start: real | Ordered(events, start)
        ensures Answers(s, map[], events) == Answers(s, map[], Calls(events))
      {
        AnswersDependOnWorth(s, map[], map[], events, start);
      }
    } else {
      SmallBurst(s, "k");
    }
  }

  /** With burst < 1 a sweep turns a refusal into an admission: a new key is admitted, an existing one with a full
      bucket is not. */
  lemma SmallBurst(s: Settings, key: string)
    requires Sane(s) && s.burst < 1.0
    ensures !EvictionInvisible(s)
  {
    var later := 1.0 / s.rate;
    assert later > 0.0 && later * s.rate == 1.0;
    var events := [Call(key, 0.0), Sweep(later), Call(key, later)];
    var e1, e2 := events[1..], events[2..];
    assert e1 == [Sweep(later), Call(key, later)] && e2 == [Call(key, later)] && e1[1..] == e2 && e2[1..] == [];
    assert Ordered(e2, later) && Ordered(e1, 0.0) && Ordered(events, 0.0);
    var m1 := After(s, map[], events[0]);
    assert m1 == map[key := Bucket(s.burst - 1.0, 0.0)];
    assert Refilled(s, m1[key], later) == s.burst;
    var m2 := After(s, m1, e1[0]);
    assert m2 == map[];
    assert Allow(s, m2, key, later).0 && !Allow(s, m1, key, later).0;
    var calls := [events[0], events[2]];
    assert Calls(e2) == [events[2]] && Calls(e1) == [events[2]] && Calls(events) == calls;
    assert calls[1..] == e2;
    assert Answers(s, m2, e2) == [(key, true)] && Answers(s, m1, e2) == [(key, false)];
    assert Answers(s, m1, e1) == [(key, true)];
    assert Answers(s, map[], events)[1] != Answers(s, map[], calls)[1];
  }

  // --- Keys are independent ---------------------------------------------------------------------------

  function CallsOf(key: string, events: seq<Event>): seq<Event>
  {
    if events == [] then []
    else (if events[0].Call? && events[0].key == key then [events[0]] else []) + CallsOf(key, events[1..])
  }

  function AnswersTo(key: string, answers: seq<(string, bool)>): seq<(string, bool)>
  {
    if answers == [] then []
    else (if answers[0].0 == key then [answers[0]] else []) + AnswersTo(key, answers[1..])
  }

  lemma {:induction false} AnswersToOneKey(s: Settings, m: Buckets, m': Buckets, key: string, events: seq<Event>, now: real)
    requires Sane(s) && s.burst >= 1.0 && Ordered(events, now)
    requires Available(s, m, key, now) == Available(s, m', key, now)
    ensures AnswersTo(key, Answers(s, m, events)) == Answers(s, m', CallsOf(key, events))
    decreases |events|
  {
    hide Allow, EvictIdle, Available, Earned;
    if events != [] {
      var e, rest := events[0], events[1..];
      var next := After(s, m, e);
      AvailableLater(s, m, key, now, e.time);
      AvailableLater(s, m', key, now, e.time);
      if e.Call? {
        AllowSpendsOne(s, m, e.key, e.time);
        var answer := (e.key, Allow(s, m, e.key, e.time).0);
        assert Answers(s, m, events) == [answer] + Answers(s, next, rest);
        assert ([answer] + Answers(s, next, rest))[1..] == Answers(s, next, rest);
        if e.key == key {
          AllowSpendsOne(s, m', key, e.time);
          assert CallsOf(key, events)[1..] == CallsOf(key, rest);
          AnswersToOneKey(s, next, After(s, m', e), key, rest, e.time);
        } else {
          assert CallsOf(key, events) == CallsOf(key, rest);
          AnswersToOneKey(s, next, m', key, rest, e.time);
        }
      } else {
        EvictKeepsWorth(s, m, e.time);
        assert CallsOf(key, events) == CallsOf(key, rest);
        assert Answers(s, m, events) == Answers(s, next, rest);
        AnswersToOneKey(s, next, m', key, rest, e.time);
      }
    }
  }

  /** The answers to one key are those it would get if nobody else called and nothing was ever evicted. */
  lemma KeysAreIndependent(s: Settings, key: string, events: seq<Event>, start: real)
    requires Sane(s) && s.burst >= 1.0 && Ordered(events, start)
    ensures AnswersTo(key, Answers(s, map[], events)) == Answers(s, map[], CallsOf(key, events))
  {
    AnswersToOneKey(s, map[], map[], key, events, start);
  }

  // --- Admission is bounded ---------------------------------------------------------------------------

  /** The calls of `key` at times between `from` and `to` that a run admits. */
  function Admitted(s: Settings, m: Buckets, events: seq<Event>, key: string, from: real, to: real): nat
    decreases |events|
  {
    if events == [] then 0
    else
      var e := events[0];
      (if e.Call? && e.key == key && from <= e.time <= to && Allow(s, m, key, e.time).0 then 1 else 0)
      + Admitted(s, After(s, m, e), events[1..], key, from, to)
  }

  lemma AfterSound(s: Settings, m: Buckets, e: Event)
    requires Sane(s) && s.burst >= 1.0 && Sound(s, m, e.time)
    ensures Sound(s, After(s, m, e), e.time)
  {
    hide Earned;
    if e.Call? && e.key in m {
      EarnedLaws(s, m[e.key].lastRefill, e.time, e.time);
    }
  }

  lemma AvailableNotNegative(s: Settings, m: Buckets, key: string, now: real)
    requires Sane(s) && Sound(s, m, now)
    ensures 0.0 <= Available(s, m, key, now) <= s.burst
  {
    hide Earned;
    if key in m {
      EarnedLaws(s, m[key].lastRefill, now, now);
    }
  }

  lemma {:induction false} NothingAfter(s: Settings, m: Buckets, events: seq<Event>, key: string, from: real, to: real, now: real)
    requires Ordered(events, now) && to < now
    ensures Admitted(s, m, events, key, from, to) == 0
    decreases |events|
  {
    hide Allow, EvictIdle;
    if events != [] {
      NothingAfter(s, After(s, m, events[0]), events[1..], key, from, to, events[0].time);
    }
  }

  /** From any state: what is available now, plus what refills until the window closes. */
  lemma {:induction false} AdmittedFromNow(s: Settings, m: Buckets, events: seq<Event>, key: string, from: real, to: real, now: real)
    requires Sane(s) && s.burst >= 1.0 && Sound(s, m, now) && Ordered(events, now) && now <= to
    ensures Admitted(s, m, events, key, from, to) as real <= Available(s, m, key, now) + Earned(s, now, to)
    decreases |events|
  {
    hide Allow, EvictIdle, Available, Earned;
    AvailableNotNegative(s, m, key, now);
    EarnedLaws(s, now, to, to);
    if events != [] {
      var e := events[0];
      if to < e.time {
        NothingAfter(s, m, events, key, from, to, e.time);
      } else {
        var next := After(s, m, e);
        AvailableLater(s, m, key, now, e.time);
        AfterSound(s, m, e);
        if e.Call? {
          AllowSpendsOne(s, m, e.key, e.time);
        } else {
          EvictKeepsWorth(s, m, e.time);
        }
        AdmittedFromNow(s, next, events[1..], key, from, to, e.time);
        EarnedLaws(s, now, e.time, to);
      }
    }
  }

  lemma {:induction false} AdmittedInWindow(s: Settings, m: Buckets, events: seq<Event>, key: string, from: real, to: real, now: real)
    requires Sane(s) && s.burst >= 1.0 && Sound(s, m, now) && Ordered(events, now) && from <= to
    ensures Admitted(s, m, events, key, from, to) as real <= s.burst + s.rate * (to - from)
    decreases |events|
  {
    EarnedIs(s, from, to);
    hide Allow, EvictIdle, Available, Earned;
    EarnedLaws(s, from, to, to);
    if events != [] {
      var e := events[0];
      if e.time < from {
        AfterSound(s, m, e);
        AdmittedInWindow(s, After(s, m, e), events[1..], key, from, to, e.time);
      } else if e.time <= to {
        AvailableNotNegative(s, m, key, e.time);
        AdmittedFromNow(s, m, events, key, from, to, e.time);
        EarnedLaws(s, from, e.time, to);
      } else {
        NothingAfter(s, m, events, key, from, to, e.time);
      }
    }
  }

  lemma EarnedIs(s: Settings, t: real, u: real)
    ensures Earned(s, t, u) == s.rate * (u - t)
  {
  }

  /** In every run and every window a key is admitted at most a burst plus what the rate allows. */
  ghost predicate AdmissionBounded(s: Settings)
  {
    forall events: seq<Event>, start: real, key: string, from: real, to: real ::
      Ordered(events, start) && from <= to ==>
        Admitted(s, map[], events, key, from, to) as real <= s.burst + s.rate * (to - from)
  }

  /** The bound holds in all runs exactly when a bucket holds a whole token: with less, the first call alone
      exceeds it. */
  lemma AdmissionBoundedIff(s: Settings)
    requires Sane(s)
    ensures AdmissionBounded(s) <==> s.burst >= 1.0
  {
    if s.burst >= 1.0 {
      forall events: seq<Event>, start: real, key: string, from: real, to: real | Ordered(events, start) && from <= to
        ensures Admitted(s, map[], events, key, from, to) as real <= s.burst + s.rate * (to - from)
      {
        AdmittedInWindow(s, map[], events, key, from, to, start);
      }
    } else {
      var events := [Call("k", 0.0)];
      assert events[1..] == [] && Ordered(events, 0.0);
      assert Admitted(s, map[], events, "k", 0.0, 0.0) == 1;
      assert s.rate * (0.0 - 0.0) == 0.0;
    }
  }

  // --- When a call is refused -----------------------------------------------------------------------------

  /** The buckets after a run. */
  function Run(s: Settings, m: Buckets, events: seq<Event>): Buckets
    decreases |events|
  {
    if events == [] then m else Run(s, After(s, m, events[0]), events[1..])
  }

  /** The time of the last event. */
  function End(events: seq<Event>, start: real): real
  {
    if events == [] then start else events[|events| - 1].time
  }

  lemma {:induction false} OneMore(s: Settings, m: Buckets, events: seq<Event>, e: Event, key: string, from: real, to: real)
    ensures Run(s, m, events + [e]) == After(s, Run(s, m, events), e)
    ensures Admitted(s, m, events + [e], key, from, to)
         == Admitted(s, m, events, key, from, to) + Admitted(s, Run(s, m, events), [e], key, from, to)
    ensures Answers(s, m, events + [e]) == Answers(s, m, events) + Answers(s, Run(s, m, events), [e])
    decreases |events|
  {
    hide Allow, EvictIdle;
    var all := events + [e];
    if events == [] {
      assert all == [e] && [e][1..] == [];
    } else {
      assert all[0] == events[0] && all[1..] == events[1..] + [e];
      OneMore(s, After(s, m, events[0]), events[1..], e, key, from, to);
    }
  }

  lemma {:induction false} OrderedFront(events: seq<Event>, e: Event, start: real)
    ensures Ordered(events + [e], start) <==> Ordered(events, start) && End(events, start) <= e.time
    decreases |events|
  {
    var all := events + [e];
    if events == [] {
      assert all == [e] && [e][1..] == [];
    } else {
      assert all[0] == events[0] && all[1..] == events[1..] + [e];
      OrderedFront(events[1..], e, events[0].time);
    }
  }

  lemma {:induction false} WiderWindow(s: Settings, m: Buckets, events: seq<Event>, key: string, from: real, to: real, later: real)
    requires to <= later
    ensures Admitted(s, m, events, key, from, to) <= Admitted(s, m, events, key, from, later)
    decreases |events|
  {
    hide Allow, EvictIdle;
    if events != [] {
      WiderWindow(s, After(s, m, events[0]), events[1..], key, from, to, later);
    }
  }

  /** What one event costs a key is what it admits of it. */
  lemma EventCosts(s: Settings, m: Buckets, e: Event, key: string, from: real)
    requires Sane(s) && s.burst >= 1.0 && from <= e.time
    ensures Available(s, After(s, m, e), key, e.time)
         == Available(s, m, key, e.time) - Admitted(s, m, [e], key, from, e.time) as real
  {
    if e.Call? {
      AllowSpendsOne(s, m, e.key, e.time);
    } else {
      EvictKeepsWorth(s, m, e.time);
    }
    hide Allow, EvictIdle, Available;
    assert [e][1..] == [];
    assert Admitted(s, After(s, m, e), [], key, from, e.time) == 0;
  }

  /** Since some time a key has had a full bucket and what the rate earned, less the calls admitted. */
  lemma {:induction false} SinceFull(s: Settings, events: seq<Event>, key: string, start: real, now: real)
    returns (from: real)
    requires Sane(s) && s.burst >= 1.0 && Ordered(events, start) && End(events, start) <= now
    ensures from <= now
    ensures Available(s, Run(s, map[], events), key, now)
         >= s.burst + Earned(s, from, now) - Admitted(s, map[], events, key, from, now) as real
    decreases |events|
  {
    EarnedLaws(s, now, now, now);
    if events == [] {
      from := now;
    } else {
      hide Allow, EvictIdle, Available, Admitted, Earned;
      var n := |events| - 1;
      var front, e := events[..n], events[n];
      assert events == front + [e];
      OrderedFront(front, e, start);
      from := SinceFull(s, front, key, start, e.time);
      var m, m' := Run(s, map[], front), Run(s, map[], events);
      OneMore(s, map[], front, e, key, from, e.time);
      EventCosts(s, m, e, key, from);
      AvailableLater(s, m', key, e.time, now);
      EarnedLaws(s, from, e.time, now);
      WiderWindow(s, map[], events, key, from, e.time, now);
      if Available(s, m', key, e.time) + Earned(s, e.time, now) > s.burst {
        from := now;
      }
    }
  }

  /** A window that ends with the call holds more admitted calls than a full bucket and the rate allow before it. */
  ghost predicate Exhausted(s: Settings, events: seq<Event>, key: string, from: real, now: real)
  {
    from <= now && Admitted(s, map[], events, key, from, now) as real > s.burst - 1.0 + s.rate * (now - from)
  }

  lemma ExhaustedIs(s: Settings, events: seq<Event>, key: string, from: real, now: real)
    ensures Exhausted(s, events, key, from, now)
       <==> from <= now && Admitted(s, map[], events, key, from, now) as real > s.burst - 1.0 + Earned(s, from, now)
  {
    hide Admitted;
    EarnedIs(s, from, now);
  }

  /** The answer to a call that follows `events`. */
  function Answer(s: Settings, events: seq<Event>, key: string, now: real): bool
  {
    var answers := Answers(s, map[], events + [Call(key, now)]);
    answers != [] && answers[|answers| - 1].1
  }

  lemma AnswerIs(s: Settings, events: seq<Event>, key: string, now: real, from: real)
    ensures Answer(s, events, key, now) == Allow(s, Run(s, map[], events), key, now).0
    ensures from <= now ==> Admitted(s, map[], events + [Call(key, now)], key, from, now)
                            == Admitted(s, map[], events, key, from, now) + if Answer(s, events, key, now) then 1 else 0
  {
    var e, m := Call(key, now), Run(s, map[], events);
    OneMore(s, map[], events, e, key, from, now);
    hide Allow, EvictIdle;
    assert [e][1..] == [];
    assert Answers(s, m, [e]) == [(key, Allow(s, m, key, now).0)] + Answers(s, After(s, m, e), []);
    assert Admitted(s, After(s, m, e), [], key, from, now) == 0;
  }

  /** Among any calls of any keys and any sweeps, a call is refused exactly when some window that ends with it holds
      more admitted calls of its key than a burst, less one, and the rate times its length. */
  lemma RefusedIff(s: Settings, events: seq<Event>, key: string, start: real, now: real)
    requires Sane(s) && s.burst >= 1.0 && Ordered(events + [Call(key, now)], start)
    ensures !Answer(s, events, key, now) <==> exists from :: Exhausted(s, events, key, from, now)
  {
    OrderedFront(events, Call(key, now), start);
    var m := Run(s, map[], events);
    AnswerIs(s, events, key, now, now);
    AllowSpendsOne(s, m, key, now);
    hide Allow, EvictIdle, Available, Admitted, Answer, Earned, Exhausted;
    if !Answer(s, events, key, now) {
      var from := SinceFull(s, events, key, start, now);
      ExhaustedIs(s, events, key, from, now);
    } else {
      forall from
        ensures !Exhausted(s, events, key, from, now)
      {
        ExhaustedIs(s, events, key, from, now);
        if from <= now {
          AnswerIs(s, events, key, now, from);
          EarnedInWindow(s, events + [Call(key, now)], key, start, from, now);
        }
      }
    }
  }

  /** No call of the key in the last `gap`. */
  predicate Quiet(events: seq<Event>, key: string, now: real, gap: real)
  {
    forall e | e in events :: e.Call? && e.key == key ==> e.time <= now - gap
  }

  lemma {:induction false} QuietWindow(s: Settings, m: Buckets, events: seq<Event>, key: string, from: real, now: real, gap: real)
    requires Quiet(events, key, now, gap) && gap >= 0.0
    ensures Admitted(s, m, events, key, from, now) == Admitted(s, m, events, key, from, now - gap)
    ensures now - gap < from ==> Admitted(s, m, events, key, from, now) == 0
    decreases |events|
  {
    hide Allow, EvictIdle;
    if events != [] {
      assert events[0] in events;
      QuietWindow(s, After(s, m, events[0]), events[1..], key, from, now, gap);
    }
  }

  /** A client that waits as long as one token takes is never refused. */
  lemma SpacedCallsAdmitted(s: Settings, events: seq<Event>, key: string, start: real, now: real)
    requires Sane(s) && s.burst >= 1.0 && Ordered(events + [Call(key, now)], start)
    requires Quiet(events, key, now, 1.0 / s.rate)
    ensures Answer(s, events, key, now)
  {
    var gap := 1.0 / s.rate;
    assert gap > 0.0 && s.rate * gap == 1.0;
    OrderedFront(events, Call(key, now), start);
    hide Answer, Exhausted;
    forall from
      ensures !Exhausted(s, events, key, from, now)
    {
      NotExhausted(s, events, key, start, from, now, gap);
    }
    RefusedIff(s, events, key, start, now);
  }

  lemma NotExhausted(s: Settings, events: seq<Event>, key: string, start: real, from: real, now: real, gap: real)
    requires Sane(s) && s.burst >= 1.0 && Ordered(events, start)
    requires gap > 0.0 && s.rate * gap == 1.0 && Quiet(events, key, now, gap)
    ensures !Exhausted(s, events, key, from, now)
  {
    ExhaustedIs(s, events, key, from, now);
    EarnedOne(s, now, gap);
    hide Earned, Admitted, Exhausted;
    if from <= now {
      QuietWindow(s, map[], events, key, from, now, gap);
      EarnedLaws(s, from, now, now);
      if from <= now - gap {
        EarnedInWindow(s, events, key, start, from, now - gap);
        EarnedLaws(s, from, now - gap, now);
      }
    }
  }

  lemma EarnedOne(s: Settings, now: real, gap: real)
    requires s.rate * gap == 1.0
    ensures Earned(s, now - gap, now) == 1.0
  {
    assert now - (now - gap) == gap;
  }

  lemma EarnedInWindow(s: Settings, events: seq<Event>, key: string, start: real, from: real, to: real)
    requires Sane(s) && s.burst >= 1.0 && Ordered(events, start) && from <= to
    ensures Admitted(s, map[], events, key, from, to) as real <= s.burst + Earned(s, from, to)
  {
    AdmittedInWindow(s, map[], events, key, from, to, start);
    EarnedIs(s, from, to);
  }

  // --- What is forgotten ------------------------------------------------------------------------------------

  /** The bucket of a key was last touched by its last call. */
  lemma {:induction false} LastTouched(s: Settings, m: Buckets, events: seq<Event>, key: string, last: real)
    requires forall e | e in events :: e.Call? && e.key == key ==> e.time <= last
    requires key in m ==> m[key].lastRefill <= last
    ensures var m' := Run(s, m, events); key in m' ==> m'[key].lastRefill <= last
    decreases |events|
  {
    if events != [] {
      assert events[0] in events;
      LastTouched(s, After(s, m, events[0]), events[1..], key, last);
    }
  }

  lemma {:induction false} RunSound(s: Settings, m: Buckets, events: seq<Event>, start: real, now: real)
    requires Sane(s) && s.burst >= 1.0 && Ordered(events, start) && End(events, start) <= now
    requires Sound(s, m, start)
    ensures Sound(s, Run(s, m, events), now)
    decreases |events|
  {
    if events != [] {
      AfterSound(s, m, events[0]);
      hide Allow, EvictIdle;
      RunSound(s, After(s, m, events[0]), events[1..], events[0].time, now);
    }
  }

  /** A sweep drops the bucket of every key that has been quiet as long as a full bucket takes. */
  lemma QuietKeysForgotten(s: Settings, events: seq<Event>, key: string, start: real, now: real)
    requires Sane(s) && s.burst >= 1.0 && Ordered(events + [Sweep(now)], start)
    requires Quiet(events, key, now, s.burst / s.rate)
    ensures key !in Run(s, map[], events + [Sweep(now)])
  {
    var gap := s.burst / s.rate;
    assert s.rate * gap == s.burst;
    OrderedFront(events, Sweep(now), start);
    OneMore(s, map[], events, Sweep(now), key, now, now);
    LastTouched(s, map[], events, key, now - gap);
    RunSound(s, map[], events, start, now);
    var m := Run(s, map[], events);
    if key in m {
      EarnedIs(s, m[key].lastRefill, now);
      FullAfter(s, now - m[key].lastRefill, gap);
    }
  }

  lemma FullAfter(s: Settings, waited: real, gap: real)
    requires Sane(s) && waited >= gap && s.rate * gap == s.burst
    ensures s.rate * waited >= s.burst
  {
    assert s.rate * waited == s.rate * gap + s.rate * (waited - gap);
  }
}
