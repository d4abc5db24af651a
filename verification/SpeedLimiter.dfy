/** The token bucket that paces downloads. */
module SpeedLimiter {
  import opened Common

  /** A request for some bytes at some time. */
  datatype Request = Request(at: real, bytes: nat)

  /** The bucket after a request: it may be in debt. */
  datatype Bucket = Bucket(tokens: real, last: real)

  /** What a rate earns over a time. */
  function Earned(rate: nat, time: real): real {
    rate as real * time
  }

  function Refilled(rate: nat, b: Bucket, now: real): real {
    var tokens := b.tokens + Earned(rate, now - b.last);
    var limit := 2.0 * rate as real;
    if tokens < limit then tokens else limit
  }

  function After(rate: nat, b: Bucket, r: Request): Bucket {
    Bucket(Refilled(rate, b, r.at) - r.bytes as real, r.at)
  }

  /** How long to wait until a debt is paid off. */
  function Delay(rate: nat, b: Bucket): Option<real>
    requires rate > 0
  {
    if b.tokens < 0.0 then Some(-b.tokens / rate as real) else None
  }

  /** When the bytes may go. */
  function Release(rate: nat, b: Bucket): real
    requires rate > 0
  {
    var delay := Delay(rate, b);
    if delay.Some? then b.last + delay.value else b.last
  }

  class Limiter {
    var rate: nat
    var tokens: real
    var lastRefill: real

    ghost function Value(): Bucket
      reads this
    {
      Bucket(tokens, lastRefill)
    }

    constructor (rate: nat, now: real)
      ensures this.rate == rate && Value() == Start(rate, now)
    {
      this.rate, tokens, lastRefill := rate, rate as real, now;
    }

    /** A zero rate is no limit and leaves the bucket alone. */
    method Reserve(bytes: nat, now: real) returns (delay: Option<real>)
      modifies this`tokens, this`lastRefill
      ensures rate == 0 ==> delay == None && Value() == old(Value())
      ensures rate > 0 ==> Value() == After(rate, old(Value()), Request(now, bytes)) && delay == Delay(rate, Value())
      ensures rate > 0 ==> tokens <= 2.0 * rate as real
    {
      if rate == 0 {
        return None;
      }
      var elapsed := now - lastRefill;
      lastRefill := now;
      tokens := tokens + Earned(rate, elapsed);
      if tokens > 2.0 * rate as real {
        tokens := 2.0 * rate as real;
      }
      tokens := tokens - bytes as real;
      if tokens < 0.0 {
        delay := Some(-tokens / rate as real);
      } else {
        delay := None;
      }
    }

    ghost function Now(): Pace
      reads this
    {
      Pace(rate, Value())
    }

    /** Serves the messages one after another; requests get their delays, in order. */
    method Run(messages: seq<Message>) returns (delays: seq<Option<real>>)
      modifies this
      ensures Now() == Paced(old(Now()), messages) && delays == Delays(old(Now()), messages)
    {
      delays := [];
      for i := 0 to |messages|
        invariant Now() == Paced(old(Now()), messages[..i])
        invariant delays == Delays(old(Now()), messages[..i])
      {
        assert messages[..i + 1][..i] == messages[..i];
        match messages[i] {
          case Acquire(request) =>
            var delay := Reserve(request.bytes, request.at);
            delays := delays + [delay];
          case SetRate(newRate) =>
            rate := newRate;
        }
      }
      assert messages[..|messages|] == messages;
    }
  }

  // ---- Messages to the limiter ----

  datatype Message = Acquire(request: Request) | SetRate(newRate: nat)

  datatype Pace = Pace(rate: nat, bucket: Bucket)

  /** A request is free while there is no rate; a new rate counts from the last refill on. */
  function Handle(p: Pace, m: Message): Pace {
    match m
    case Acquire(request) => if p.rate == 0 then p else p.(bucket := After(p.rate, p.bucket, request))
    case SetRate(rate) => p.(rate := rate)
  }

  function Paced(p: Pace, messages: seq<Message>): Pace {
    if messages == [] then p else Handle(Paced(p, messages[..|messages| - 1]), messages[|messages| - 1])
  }

  function Delays(p: Pace, messages: seq<Message>): seq<Option<real>> {
    if messages == [] then []
    else
      var n := |messages| - 1;
      var q := Paced(p, messages);
      Delays(p, messages[..n])
      + if messages[n].SetRate? then [] else if q.rate == 0 then [None] else [Delay(q.rate, q.bucket)]
  }

  /** The bytes of the requests that a rate was in force for. */
  function Granted(p: Pace, messages: seq<Message>): nat {
    if messages == [] then 0
    else
      var n := |messages| - 1;
      Granted(p, messages[..n])
      + if messages[n].Acquire? && Paced(p, messages[..n]).rate > 0 then messages[n].request.bytes else 0
  }

  /** The clock does not run backwards and no rate is above the top. */
  predicate Within(p: Pace, messages: seq<Message>, top: nat) {
    p.rate <= top && (messages == [] ||
    var n := |messages| - 1;
    && Within(p, messages[..n], top)
    && match messages[n]
       case Acquire(request) => Paced(p, messages[..n]).bucket.last <= request.at
       case SetRate(rate) => rate <= top)
  }

  /** Whatever the rates, no more is granted than was there and the highest of them earns. */
  lemma {:induction false} GrantedBound(p: Pace, messages: seq<Message>, top: nat)
    requires Within(p, messages, top)
    ensures var q := Paced(p, messages);
            && q.rate <= top && p.bucket.last <= q.bucket.last
            && Granted(p, messages) as real + q.bucket.tokens
                 <= p.bucket.tokens + Earned(top, q.bucket.last - p.bucket.last)
  {
    hide Earned;
    if messages == [] {
      EarnedDifference(top, 0.0, 0.0, 0.0);
    } else {
      var n := |messages| - 1;
      GrantedBound(p, messages[..n], top);
      var q := Paced(p, messages[..n]);
      if messages[n].Acquire? && q.rate > 0 {
        var at := messages[n].request.at;
        EarnedDifference(top, at, q.bucket.last, p.bucket.last);
        EarnedMore(q.rate, top, at - q.bucket.last);
      }
    }
  }

  lemma EarnedMore(rate: nat, top: nat, time: real)
    requires rate <= top && time >= 0.0
    ensures Earned(rate, time) <= Earned(top, time)
  {
    assert (top - rate) as real * time >= 0.0;
    assert (top - rate) as real == top as real - rate as real;
  }

  /** Requests alone, at a constant rate, are served as below. */
  lemma {:induction false} ConstantRate(rate: nat, b: Bucket, requests: seq<Request>, messages: seq<Message>)
    requires rate > 0 && |messages| == |requests| && forall i :: 0 <= i < |requests| ==> messages[i] == Acquire(requests[i])
    ensures Paced(Pace(rate, b), messages) == Pace(rate, Served(rate, b, requests))
    ensures |Delays(Pace(rate, b), messages)| == |requests|
    ensures forall i :: 0 <= i < |requests| ==>
              Delays(Pace(rate, b), messages)[i] == Delay(rate, Served(rate, b, requests[..i + 1]))
  {
    hide After, Delay;
    if requests != [] {
      var n := |requests| - 1;
      ConstantRate(rate, b, requests[..n], messages[..n]);
      assert requests[..n + 1] == requests;
      forall i | 0 <= i < n
        ensures Delays(Pace(rate, b), messages)[i] == Delay(rate, Served(rate, b, requests[..i + 1]))
      {
        assert requests[..n][..i + 1] == requests[..i + 1];
      }
    }
  }

  /** Without a rate every request goes at once and the bucket stays as it is. */
  lemma {:induction false} Unlimited(p: Pace, messages: seq<Message>)
    requires p.rate == 0 && forall i :: 0 <= i < |messages| ==> messages[i].Acquire?
    ensures Paced(p, messages) == p && |Delays(p, messages)| == |messages|
    ensures forall i :: 0 <= i < |messages| ==> Delays(p, messages)[i] == None
  {
    if messages != [] {
      Unlimited(p, messages[..|messages| - 1]);
    }
  }

  /** Rate changes between two requests matter only by the last of them: what is in the bucket stays. */
  lemma {:induction false} LastRateCounts(p: Pace, rates: seq<nat>, request: Request)
    requires rates != [] && rates[|rates| - 1] > 0
    ensures var messages := seq(|rates|, i requires 0 <= i < |rates| => SetRate(rates[i]));
            var rate := rates[|rates| - 1];
            Paced(p, messages + [Acquire(request)]) == Pace(rate, After(rate, p.bucket, request))
  {
    var messages: seq<Message> := seq(|rates|, i requires 0 <= i < |rates| => SetRate(rates[i]));
    RatesKeepBucket(p, rates, messages);
    assert (messages + [Acquire(request)])[..|messages|] == messages;
  }

  lemma {:induction false} RatesKeepBucket(p: Pace, rates: seq<nat>, messages: seq<Message>)
    requires |messages| == |rates| && forall i :: 0 <= i < |rates| ==> messages[i] == SetRate(rates[i])
    ensures Paced(p, messages) == if rates == [] then p else p.(rate := rates[|rates| - 1])
  {
    if rates != [] {
      RatesKeepBucket(p, rates[..|rates| - 1], messages[..|rates| - 1]);
    }
  }

  /**
   * However long nothing was asked for, two seconds' worth goes at once and not more: the rest of a
   * request waits until the rate has earned it.
   */
  lemma IdleBurst(rate: nat, b: Bucket, r: Request)
    requires rate > 0 && b.tokens + rate as real * (r.at - b.last) >= 2.0 * rate as real
    ensures var release := Release(rate, After(rate, b, r));
            if r.bytes <= 2 * rate then release == r.at
            else release > r.at && rate as real * (release - r.at) == (r.bytes - 2 * rate) as real
  {
    var c := After(rate, b, r);
    DebtPaid(rate, c.tokens);
    if r.bytes > 2 * rate {
      LargerDebtPositive(rate, c.tokens);
    }
  }

  /** A bucket that is not full gives what it has and what the rate has earned since, and no less. */
  lemma BucketGives(rate: nat, b: Bucket, r: Request)
    requires rate > 0 && b.tokens + rate as real * (r.at - b.last) < 2.0 * rate as real
    ensures var release, had := Release(rate, After(rate, b, r)), b.tokens + rate as real * (r.at - b.last);
            if r.bytes as real <= had then release == r.at
            else release > r.at && rate as real * (release - r.at) == r.bytes as real - had
  {
    var c := After(rate, b, r);
    DebtPaid(rate, c.tokens);
    if c.tokens < 0.0 {
      LargerDebtPositive(rate, c.tokens);
    }
  }

  // ---- The bound ----

  function Start(rate: nat, now: real): Bucket {
    Bucket(rate as real, now)
  }

  function Served(rate: nat, b: Bucket, requests: seq<Request>): Bucket {
    if requests == [] then b
    else After(rate, Served(rate, b, requests[..|requests| - 1]), requests[|requests| - 1])
  }

  function Total(requests: seq<Request>): nat {
    if requests == [] then 0 else Total(requests[..|requests| - 1]) + requests[|requests| - 1].bytes
  }

  /** The bytes of the requests released by a given time. */
  function Released(rate: nat, b: Bucket, requests: seq<Request>, time: real): nat
    requires rate > 0
  {
    if requests == [] then 0
    else
      Released(rate, b, requests[..|requests| - 1], time)
      + if Release(rate, Served(rate, b, requests)) <= time then requests[|requests| - 1].bytes else 0
  }

  lemma EarnedDifference(rate: nat, a: real, b: real, c: real)
    ensures Earned(rate, a - b) + Earned(rate, b - c) == Earned(rate, a - c)
  {
  }

  lemma EarnedMonotone(rate: nat, a: real, b: real)
    requires a <= b
    ensures Earned(rate, a) <= Earned(rate, b)
  {
    assert rate as real * (b - a) >= 0.0;
  }

  lemma EarnedStrict(rate: nat, a: real, b: real)
    requires rate > 0
    ensures a < b ==> Earned(rate, a) < Earned(rate, b)
  {
    if a < b {
      assert rate as real * (b - a) > 0.0;
    }
  }

  lemma DebtPaid(rate: nat, tokens: real)
    requires rate > 0
    ensures Earned(rate, -tokens / rate as real) == -tokens
  {
  }

  /** Whatever was granted was in the bucket at first or has been earned since; caps only lose tokens. */
  lemma {:induction false} TokensBalance(rate: nat, start: real, requests: seq<Request>)
    requires rate > 0
    ensures var b := Served(rate, Start(rate, start), requests);
            Total(requests) as real + b.tokens <= rate as real + Earned(rate, b.last - start)
  {
    hide Earned;
    if requests == [] {
      EarnedDifference(rate, start, start, start);
    } else {
      var n := |requests| - 1;
      TokensBalance(rate, start, requests[..n]);
      var b := Served(rate, Start(rate, start), requests[..n]);
      EarnedDifference(rate, requests[n].at, b.last, start);
    }
  }

  /** At its release a request and all before it fit the budget. */
  lemma ReleaseFits(rate: nat, start: real, requests: seq<Request>)
    requires rate > 0
    ensures var release := Release(rate, Served(rate, Start(rate, start), requests));
            Total(requests) as real <= rate as real + Earned(rate, release - start)
  {
    TokensBalance(rate, start, requests);
    var b := Served(rate, Start(rate, start), requests);
    DebtPaid(rate, b.tokens);
    var release := Release(rate, b);
    EarnedDifference(rate, release, b.last, start);
    EarnedMonotone(rate, 0.0, 0.0);
    assert Earned(rate, 0.0) == 0.0;
    hide Earned;
  }

  lemma {:induction false} ReleasedAtMostTotal(rate: nat, b: Bucket, requests: seq<Request>, time: real)
    requires rate > 0
    ensures Released(rate, b, requests, time) <= Total(requests)
  {
    hide Release, Served;
    if requests != [] {
      ReleasedAtMostTotal(rate, b, requests[..|requests| - 1], time);
    }
  }

  /**
   * By any time and for any request times, no more has been released than one second's worth plus
   * what the rate earned since the start.
   */
  lemma {:induction false} RateBound(rate: nat, start: real, requests: seq<Request>, time: real)
    requires rate > 0 && start <= time
    ensures Released(rate, Start(rate, start), requests, time) as real <= rate as real + Earned(rate, time - start)
  {
    hide Served, Release;
    if requests == [] {
      EarnedMonotone(rate, 0.0, time - start);
      assert Earned(rate, 0.0) == 0.0;
    } else {
      var n := |requests| - 1;
      RateBound(rate, start, requests[..n], time);
      var release := Release(rate, Served(rate, Start(rate, start), requests));
      if release <= time {
        ReleaseFits(rate, start, requests);
        ReleasedAtMostTotal(rate, Start(rate, start), requests[..n], time);
        EarnedMonotone(rate, release - start, time - start);
      }
    }
  }

  lemma EarnedPositive(rate: nat, bytes: nat)
    requires rate > 0
    ensures bytes as real / rate as real >= 0.0
  {
  }

  /**
   * The bound is reached at any time: one second's worth goes at once, and a second request of any
   * size at the start goes as soon as the rate has earned it.
   */
  lemma BoundIsReached(rate: nat, start: real, bytes: nat)
    requires rate > 0
    ensures var time := start + bytes as real / rate as real;
            Released(rate, Start(rate, start), [Request(start, rate), Request(start, bytes)], time) as real
              == rate as real + Earned(rate, time - start)
  {
    var first, second := Request(start, rate), Request(start, bytes);
    var wait := bytes as real / rate as real;
    var b := After(rate, Start(rate, start), first);
    var c := After(rate, b, second);
    EarnedDifference(rate, start, start, start);
    assert b == Bucket(0.0, start) && c == Bucket(-(bytes as real), start);
    DebtPaid(rate, c.tokens);
    assert -c.tokens == bytes as real;
    assert [first][..0] == [] && [first, second][..1] == [first];
    assert Served(rate, Start(rate, start), [first]) == b && Served(rate, Start(rate, start), [first, second]) == c;
    assert Release(rate, b) == start && Release(rate, c) == start + wait;
    assert Earned(rate, wait) == bytes as real;
    EarnedPositive(rate, bytes);
    hide Earned, Served, After, Release;
    assert Released(rate, Start(rate, start), [first], start + wait) == rate;
  }

  /** A later request is never released before an earlier one. */
  lemma ReleaseMonotone(rate: nat, b: Bucket, r: Request)
    requires rate > 0 && b.last <= r.at
    ensures Release(rate, b) <= Release(rate, After(rate, b, r))
  {
    var c := After(rate, b, r);
    if b.tokens < 0.0 && Release(rate, b) > r.at {
      DebtPaid(rate, b.tokens);
      DebtPaid(rate, c.tokens);
      var wait := Release(rate, b) - r.at;
      EarnedDifference(rate, Release(rate, b), r.at, b.last);
      assert c.tokens <= -Earned(rate, wait);
      EarnedMonotone(rate, 0.0, wait);
      assert Earned(rate, 0.0) == 0.0;
      LargerDebtWaits(rate, wait, c.tokens);
    }
  }

  lemma LargerDebtWaits(rate: nat, wait: real, tokens: real)
    requires rate > 0 && wait > 0.0 && tokens <= -Earned(rate, wait)
    ensures tokens < 0.0 && -tokens / rate as real >= wait
  {
    EarnedStrict(rate, 0.0, wait);
    DebtPaid(rate, tokens);
    EarnedStrict(rate, -tokens / rate as real, wait);
  }

  // ---- Any window ----

  /** Requests come in the order of their times. */
  predicate Ordered(last: real, requests: seq<Request>)
    decreases |requests|
  {
    requests == [] || (last <= requests[0].at && Ordered(requests[0].at, requests[1..]))
  }

  /** The bytes released after one time and up to another. */
  function ReleasedBetween(rate: nat, b: Bucket, requests: seq<Request>, after: real, upTo: real): nat
    requires rate > 0
    decreases |requests|
  {
    if requests == [] then 0
    else
      var c := After(rate, b, requests[0]);
      (if after < Release(rate, c) <= upTo then requests[0].bytes else 0)
      + ReleasedBetween(rate, c, requests[1..], after, upTo)
  }

  function LargestRequest(requests: seq<Request>): nat {
    if requests == [] then 0
    else
      var rest := LargestRequest(requests[1..]);
      if requests[0].bytes > rest then requests[0].bytes else rest
  }

  lemma {:induction false} ServedFirst(rate: nat, b: Bucket, requests: seq<Request>)
    requires requests != []
    ensures Served(rate, b, requests) == Served(rate, After(rate, b, requests[0]), requests[1..])
  {
    hide After;
    var n := |requests| - 1;
    if n > 0 {
      ServedFirst(rate, b, requests[..n]);
      assert requests[..n][1..] == requests[1..][..n - 1];
    } else {
      assert requests[..0] == [];
    }
  }

  lemma {:induction false} ReleasedFirst(rate: nat, b: Bucket, requests: seq<Request>, time: real)
    requires rate > 0 && requests != []
    ensures var c := After(rate, b, requests[0]);
            Released(rate, b, requests, time)
              == (if Release(rate, c) <= time then requests[0].bytes else 0) + Released(rate, c, requests[1..], time)
  {
    hide After, Release;
    var n := |requests| - 1;
    ServedFirst(rate, b, requests);
    if n > 0 {
      ReleasedFirst(rate, b, requests[..n], time);
      assert requests[..n][1..] == requests[1..][..n - 1];
    } else {
      assert requests[..0] == [];
    }
  }

  /** It is what has been released by the one time and not by the other. */
  lemma {:induction false} BetweenIsDifference(rate: nat, b: Bucket, requests: seq<Request>, after: real, upTo: real)
    requires rate > 0 && after <= upTo
    ensures ReleasedBetween(rate, b, requests, after, upTo)
         == Released(rate, b, requests, upTo) - Released(rate, b, requests, after)
    decreases |requests|
  {
    hide After, Release;
    if requests != [] {
      var c := After(rate, b, requests[0]);
      BetweenIsDifference(rate, c, requests[1..], after, upTo);
      ReleasedFirst(rate, b, requests, after);
      ReleasedFirst(rate, b, requests, upTo);
    }
  }

  lemma {:induction false} NoneAfter(rate: nat, b: Bucket, requests: seq<Request>, after: real, upTo: real)
    requires rate > 0 && Ordered(b.last, requests) && Release(rate, b) > upTo
    ensures ReleasedBetween(rate, b, requests, after, upTo) == 0
    decreases |requests|
  {
    hide After, Release;
    if requests != [] {
      ReleaseMonotone(rate, b, requests[0]);
      AfterLast(rate, b, requests[0]);
      NoneAfter(rate, After(rate, b, requests[0]), requests[1..], after, upTo);
    }
  }

  /** A refill only loses tokens to the cap. */
  lemma AfterLast(rate: nat, b: Bucket, r: Request)
    ensures var c := After(rate, b, r);
            && c.last == r.at && c.tokens + r.bytes as real == Refilled(rate, b, r.at)
            && Refilled(rate, b, r.at) <= b.tokens + Earned(rate, r.at - b.last)
            && Refilled(rate, b, r.at) <= 2.0 * rate as real
  {
  }

  /** By its release a bucket has paid its debt, and not before. */
  lemma DebtAtRelease(rate: nat, b: Bucket, time: real)
    requires rate > 0
    ensures Release(rate, b) <= time ==> b.last <= time && b.tokens + Earned(rate, time - b.last) >= 0.0
    ensures b.tokens < 0.0 ==> b.tokens + Earned(rate, time - b.last) == Earned(rate, time - Release(rate, b))
  {
    var release := Release(rate, b);
    DebtPaid(rate, b.tokens);
    EarnedDifference(rate, time, release, b.last);
    EarnedNothing(rate);
    if b.tokens < 0.0 {
      LargerDebtPositive(rate, b.tokens);
      assert Earned(rate, release - b.last) == -b.tokens;
    }
    if release <= time {
      EarnedMonotone(rate, 0.0, time - release);
      EarnedMonotone(rate, 0.0, time - b.last);
    }
    hide Earned;
  }

  lemma LargerDebtPositive(rate: nat, tokens: real)
    requires rate > 0 && tokens < 0.0
    ensures -tokens / rate as real > 0.0
  {
  }

  /** What is released up to a time from a bucket whose debt is paid by then. */
  lemma {:induction false} PaidBound(rate: nat, b: Bucket, requests: seq<Request>, after: real, upTo: real)
    requires rate > 0 && Ordered(b.last, requests) && Release(rate, b) <= upTo
    ensures ReleasedBetween(rate, b, requests, after, upTo) as real <= b.tokens + Earned(rate, upTo - b.last)
    decreases |requests|
  {
    hide After, Release, Earned, Refilled;
    DebtAtRelease(rate, b, upTo);
    if requests != [] {
      var r := requests[0];
      var c := After(rate, b, r);
      AfterLast(rate, b, r);
      EarnedDifference(rate, upTo, r.at, b.last);
      if Release(rate, c) <= upTo {
        PaidBound(rate, c, requests[1..], after, upTo);
      } else {
        NoneAfter(rate, c, requests[1..], after, upTo);
      }
    }
  }

  /**
   * In any window no more is released than the rate earns in it plus two seconds' worth, or plus
   * the largest request if that is more: a request goes as a whole when its debt is paid.
   */
  lemma {:induction false} WindowBound(rate: nat, b: Bucket, requests: seq<Request>, after: real, upTo: real)
    requires rate > 0 && Ordered(b.last, requests) && after <= upTo
    ensures ReleasedBetween(rate, b, requests, after, upTo) as real
         <= Burst(rate, LargestRequest(requests)) + Earned(rate, upTo - after)
    decreases |requests|
  {
    hide After, Release, Earned, Refilled;
    EarnedMonotone(rate, 0.0, upTo - after);
    EarnedNothing(rate);
    if requests != [] {
      var r := requests[0];
      var c := After(rate, b, r);
      AfterLast(rate, b, r);
      if Release(rate, c) <= after {
        WindowBound(rate, c, requests[1..], after, upTo);
      } else if Release(rate, c) > upTo {
        NoneAfter(rate, c, requests[1..], after, upTo);
      } else {
        PaidBound(rate, c, requests[1..], after, upTo);
        FirstInWindow(rate, c, after, upTo);
      }
    }
  }

  function Burst(rate: nat, largest: nat): real {
    if largest > 2 * rate then largest as real else 2.0 * rate as real
  }

  lemma EarnedNothing(rate: nat)
    ensures Earned(rate, 0.0) == 0.0
  {
  }

  /** After the first request released in the window either the debt or the refill lies in it. */
  lemma FirstInWindow(rate: nat, c: Bucket, after: real, upTo: real)
    requires rate > 0 && after < Release(rate, c) <= upTo
    ensures if c.last <= after then c.tokens + Earned(rate, upTo - c.last) <= Earned(rate, upTo - after)
            else Earned(rate, upTo - c.last) <= Earned(rate, upTo - after)
  {
    DebtAtRelease(rate, c, upTo);
    EarnedMonotone(rate, upTo - Release(rate, c), upTo - after);
    if c.last > after {
      EarnedMonotone(rate, upTo - c.last, upTo - after);
    }
    hide Earned;
  }
}
