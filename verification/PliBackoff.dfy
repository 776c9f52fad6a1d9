/** The back-off for keyframe requests. Times and durations are real numbers of seconds; the clock is
    a parameter. */
module PliBackoff {
  import opened Octets

  datatype Config = Config(initial: real, max: real, maxRequests: nat, multiplier: real, exponential: bool)

  /** What a segmenter is created with. */
  const DEFAULT_CONFIG: Config := Config(5.0, 30.0, 5, 2.0, true)

  datatype State = State(timeout: real, lastKeyframe: Option<real>, lastRequest: Option<real>, count: nat,
                         totalRequests: nat, totalKeyframes: nat)

  function Min(a: real, b: real): real {
    if a <= b then a else b
  }

  function Initial(c: Config): State {
    State(c.initial, None, None, 0, 0, 0)
  }

  predicate ShouldRequest(c: Config, s: State, now: real) {
    && (c.maxRequests == 0 || s.count < c.maxRequests)
    && match s.lastKeyframe
       case Some(kf) => now - kf >= s.timeout
       case None => s.lastRequest == None || now - s.lastRequest.value >= s.timeout
  }

  function AfterRequest(c: Config, s: State, now: real): State {
    s.(timeout := if c.exponential then Min(s.timeout * c.multiplier, c.max) else s.timeout,
       lastRequest := Some(now), count := s.count + 1, totalRequests := s.totalRequests + 1)
  }

  function AfterKeyframe(c: Config, s: State, now: real): State {
    State(c.initial, Some(now), None, 0, s.totalRequests, s.totalKeyframes + 1)
  }

  function AfterReset(c: Config, s: State): State {
    State(c.initial, None, None, 0, s.totalRequests, s.totalKeyframes)
  }

  class PliBackoff {
    const config: Config
    var currentTimeout: real
    var lastKeyframeTime: Option<real>
    var lastRequestTime: Option<real>
    var requestCount: nat
    var totalRequests: nat
    var totalKeyframes: nat

    function View(): State
      reads this
    {
      State(currentTimeout, lastKeyframeTime, lastRequestTime, requestCount, totalRequests, totalKeyframes)
    }

    constructor (config: Config)
      ensures this.config == config && View() == Initial(config)
    {
      this.config := config;
      currentTimeout := config.initial;
      lastKeyframeTime, lastRequestTime := None, None;
      requestCount, totalRequests, totalKeyframes := 0, 0, 0;
    }

    method Check(now: real) returns (r: bool)
      ensures r == ShouldRequest(config, View(), now)
    {
      if config.maxRequests > 0 && requestCount >= config.maxRequests {
        return false;
      }
      match lastKeyframeTime
      case None =>
        match lastRequestTime {
          case None => return true;
          case Some(lastReq) => return now - lastReq >= currentTimeout;
        }
      case Some(lastKf) =>
        var elapsed := now - lastKf;
        return elapsed >= currentTimeout;
    }

    method RecordRequest(now: real)
      modifies this
      ensures View() == AfterRequest(config, old(View()), now)
    {
      lastRequestTime := Some(now);
      requestCount := requestCount + 1;
      totalRequests := totalRequests + 1;
      if config.exponential && requestCount > 0 {
        var newTimeout := currentTimeout * config.multiplier;
        currentTimeout := Min(newTimeout, config.max);
      }
    }

    method RecordKeyframe(now: real)
      modifies this
      ensures View() == AfterKeyframe(config, old(View()), now)
    {
      lastKeyframeTime := Some(now);
      totalKeyframes := totalKeyframes + 1;
      ResetBackoff();
    }

    method ResetBackoff()
      modifies `currentTimeout, `requestCount, `lastRequestTime
      ensures currentTimeout == config.initial && requestCount == 0 && lastRequestTime == None
    {
      currentTimeout := config.initial;
      requestCount := 0;
      lastRequestTime := None;
    }

    method HardReset()
      modifies this
      ensures View() == AfterReset(config, old(View()))
    {
      lastKeyframeTime := None;
      lastRequestTime := None;
      requestCount := 0;
      currentTimeout := config.initial;
    }

    /** The recording task's periodic check: it records a request only after `should_request` allowed
        it and the message could be sent to the first video track. */
    method Tick(now: real, sendable: bool)
      modifies this
      ensures View() == Step(config, old(View()), Ticked(now, sendable))
    {
      var due := Check(now);
      if due && sendable {
        RecordRequest(now);
      }
    }
  }

  // ---- Guarded runs ----

  /** `sendable`: there is a video track and the PLI reached the publisher. */
  datatype Event = Ticked(now: real, sendable: bool) | Keyframe(now: real) | Reset

  function Step(c: Config, s: State, e: Event): State {
    match e
    case Ticked(now, sendable) => if ShouldRequest(c, s, now) && sendable then AfterRequest(c, s, now) else s
    case Keyframe(now) => AfterKeyframe(c, s, now)
    case Reset => AfterReset(c, s)
  }

  function Run(c: Config, es: seq<Event>): State {
    if es == [] then Initial(c) else Step(c, Run(c, es[..|es| - 1]), es[|es| - 1])
  }

  /** Keyframes and hard resets in a run. */
  function Restarts(es: seq<Event>): nat {
    if es == [] then 0 else Restarts(es[..|es| - 1]) + if es[|es| - 1].Ticked? then 0 else 1
  }

  /** The time of the last keyframe, unless a hard reset came after it. */
  function LastKeyframe(es: seq<Event>): Option<real> {
    if es == [] then None
    else match es[|es| - 1]
         case Ticked(_, _) => LastKeyframe(es[..|es| - 1])
         case Keyframe(now) => Some(now)
         case Reset => None
  }

  /** Requests sent since the last keyframe or hard reset. */
  function RequestsSince(c: Config, es: seq<Event>): nat {
    if es == [] || !es[|es| - 1].Ticked? then 0
    else
      var before := es[..|es| - 1];
      RequestsSince(c, before) + if Run(c, es).totalRequests > Run(c, before).totalRequests then 1 else 0
  }

  /** The time of the last request since the last keyframe or hard reset. */
  function LastRequest(c: Config, es: seq<Event>): Option<real> {
    if es == [] || !es[|es| - 1].Ticked? then None
    else
      var before := es[..|es| - 1];
      if Run(c, es).totalRequests > Run(c, before).totalRequests then Some(es[|es| - 1].now) else LastRequest(c, before)
  }

  function Pow(m: real, k: nat): real {
    if k == 0 then 1.0 else Pow(m, k - 1) * m
  }

  /** The uncapped time-out after `k` requests. */
  function Grown(c: Config, k: nat): real {
    c.initial * Pow(c.multiplier, k)
  }

  /** The time-out after `k` requests. */
  function Timeout(c: Config, k: nat): real {
    if c.exponential then Min(Grown(c, k), c.max) else c.initial
  }

  predicate Sane(c: Config) {
    0.0 <= c.initial <= c.max && c.multiplier >= 0.0
  }

  /** Capping at every step is capping once: a cap that was reached stays reached. */
  lemma TimeoutStep(c: Config, k: nat)
    requires Sane(c) && c.exponential
    ensures Min(Timeout(c, k) * c.multiplier, c.max) == Timeout(c, k + 1)
  {
    hide Grown;
    GrownStep(c, k);
    if c.multiplier < 1.0 {
      GrowsOnlyIfMultiplierDoes(c, k);
    }
    CapTwice(Grown(c, k), c.multiplier, c.max);
  }

  lemma GrownZero(c: Config)
    ensures Grown(c, 0) == c.initial
  {
    assert c.initial * 1.0 == c.initial;
  }

  lemma GrownStep(c: Config, k: nat)
    ensures Grown(c, k + 1) == Grown(c, k) * c.multiplier
  {
    var p := Pow(c.multiplier, k);
    assert Pow(c.multiplier, k + 1) == p * c.multiplier;
    hide Pow;
    Associative(c.initial, p, c.multiplier);
  }

  lemma Associative(a: real, b: real, m: real)
    ensures a * (b * m) == a * b * m
  {
  }

  lemma CapTwice(a: real, m: real, cap: real)
    requires m >= 0.0 && cap >= 0.0 && (a > cap ==> m >= 1.0)
    ensures Min(Min(a, cap) * m, cap) == Min(a * m, cap)
  {
    if a > cap {
      Monotone(cap, a, m);
      Monotone(1.0, m, cap);
    }
  }

  lemma Monotone(a: real, b: real, m: real)
    requires a <= b && m >= 0.0
    ensures a * m <= b * m
  {
  }

  lemma {:induction false} GrowsOnlyIfMultiplierDoes(c: Config, k: nat)
    requires Sane(c) && c.multiplier < 1.0
    ensures 0.0 <= Grown(c, k) <= c.initial
  {
    hide Grown;
    if k == 0 {
      GrownZero(c);
    } else {
      var j: nat := k - 1;
      GrowsOnlyIfMultiplierDoes(c, j);
      NextIsSmaller(c, j);
    }
  }

  lemma NextIsSmaller(c: Config, j: nat)
    requires Sane(c) && c.multiplier < 1.0 && Grown(c, j) >= 0.0
    ensures 0.0 <= Grown(c, j + 1) <= Grown(c, j)
  {
    hide Grown;
    var g, m := Grown(c, j), c.multiplier;
    Shrinks(g, m);
    assert g * m <= g;
    GrownStep(c, j);
    assert Grown(c, j + 1) == g * m;
  }

  lemma Shrinks(a: real, m: real)
    requires a >= 0.0 && 0.0 <= m <= 1.0
    ensures 0.0 <= a * m <= a
  {
    Monotone(m, 1.0, a);
    Monotone(0.0, m, a);
    assert m * a == a * m && 0.0 * a == 0.0;
  }

  /** After every run: the counter counts the requests since the last restart, the time-out is the
      capped power for that count, and the last keyframe is remembered. */
  lemma {:induction false} RunState(c: Config, es: seq<Event>)
    requires Sane(c)
    ensures var s := Run(c, es);
            && s.count == RequestsSince(c, es)
            && s.timeout == Timeout(c, s.count) && (!c.exponential ==> s.timeout == c.initial)
            && s.lastKeyframe == LastKeyframe(es)
            && s.lastRequest == LastRequest(c, es)
  {
    hide ShouldRequest, Timeout;
    TimeoutZero(c);
    if es != [] {
      var before := es[..|es| - 1];
      RunState(c, before);
      TimeoutAfterRequest(c, Run(c, before), 0.0);
    }
  }

  lemma TimeoutZero(c: Config)
    requires Sane(c)
    ensures Timeout(c, 0) == c.initial
  {
    assert c.initial * 1.0 == c.initial;
  }

  lemma TimeoutAfterRequest(c: Config, s: State, now: real)
    requires Sane(c) && s.timeout == Timeout(c, s.count)
    ensures AfterRequest(c, s, now).timeout == Timeout(c, s.count + 1)
  {
    if c.exponential {
      TimeoutStep(c, s.count);
    }
  }

  /** Budget: with a request limit, the requests of a whole run never exceed the limit times the number
      of keyframes and hard resets plus one. */
  lemma RequestBudget(c: Config, es: seq<Event>)
    requires c.maxRequests > 0
    ensures Run(c, es).totalRequests <= c.maxRequests * (Restarts(es) + 1)
  {
    BudgetUsed(c, es);
    assert c.maxRequests * (Restarts(es) + 1) == c.maxRequests * Restarts(es) + c.maxRequests;
  }

  lemma {:induction false} BudgetUsed(c: Config, es: seq<Event>)
    requires c.maxRequests > 0
    ensures Run(c, es).count <= c.maxRequests
    ensures Run(c, es).totalRequests <= c.maxRequests * Restarts(es) + Run(c, es).count
  {
    if es != [] {
      var before := es[..|es| - 1];
      BudgetUsed(c, before);
      assert c.maxRequests * (Restarts(before) + 1) == c.maxRequests * Restarts(before) + c.maxRequests;
    }
  }

  /** A tick is due after this run: the budget is not used up, and the k-th time-out has passed since
      the last keyframe; without a keyframe, since the last request, if there was one. */
  ghost predicate Due(c: Config, es: seq<Event>, now: real) {
    var k := RequestsSince(c, es);
    && (c.maxRequests == 0 || k < c.maxRequests)
    && match LastKeyframe(es)
       case Some(kf) => now >= kf + Timeout(c, k)
       case None => LastRequest(c, es) == None || now >= LastRequest(c, es).value + Timeout(c, k)
  }

  /** When requests are made, over every run: exactly at the ticks that are due and can be sent, one
      each. A keyframe, a reset and any other tick make none, and a tick without request changes nothing. */
  lemma RequestedExactly(c: Config, es: seq<Event>, now: real)
    requires Sane(c)
    ensures Run(c, es + [Ticked(now, true)]).totalRequests == Run(c, es).totalRequests + if Due(c, es, now) then 1 else 0
    ensures !Due(c, es, now) ==> Run(c, es + [Ticked(now, true)]) == Run(c, es)
    ensures Run(c, es + [Ticked(now, false)]) == Run(c, es)
    ensures Run(c, es + [Keyframe(now)]).totalRequests == Run(c, es + [Reset]).totalRequests == Run(c, es).totalRequests
  {
    hide Timeout, Sane, RequestsSince, LastKeyframe, LastRequest;
    RunState(c, es);
    RunSnoc(c, es, Ticked(now, true));
    RunSnoc(c, es, Ticked(now, false));
    RunSnoc(c, es, Keyframe(now));
    RunSnoc(c, es, Reset);
    hide Run;
  }

  lemma RunSnoc(c: Config, es: seq<Event>, e: Event)
    ensures Run(c, es + [e]) == Step(c, Run(c, es), e)
  {
    assert (es + [e])[..|es|] == es;
  }

  /** A new recorder asks for a keyframe at the first tick it can send, and so does one that was reset
      or that has had no keyframe and sent no request since. */
  lemma FirstTickIsDue(c: Config, now: real)
    ensures Run(c, [Ticked(now, true)]).totalRequests == 1
    ensures forall es :: LastKeyframe(es + [Reset]) == None && Due(c, es + [Reset], now)
  {
    RunSnoc(c, [], Ticked(now, true));
    assert [] + [Ticked(now, true)] == [Ticked(now, true)];
    forall es: seq<Event>
      ensures LastKeyframe(es + [Reset]) == None && Due(c, es + [Reset], now)
    {
      var es' := es + [Reset];
      assert RequestsSince(c, es') == 0 && LastRequest(c, es') == None;
    }
  }

  /** Keyframes in a run. */
  function Keyframes(es: seq<Event>): nat {
    if es == [] then 0 else Keyframes(es[..|es| - 1]) + if es[|es| - 1].Keyframe? then 1 else 0
  }

  /** The statistics survive every reset: each keyframe of the run is counted. */
  lemma {:induction false} KeyframesCounted(c: Config, es: seq<Event>)
    ensures Run(c, es).totalKeyframes == Keyframes(es)
  {
    hide ShouldRequest;
    if es != [] {
      KeyframesCounted(c, es[..|es| - 1]);
    }
  }

  /** With the settings of the recorder the time-outs are 5, 10, 20 and then always 30 seconds. */
  lemma DefaultSchedule(k: nat)
    ensures Timeout(DEFAULT_CONFIG, k) == if k == 0 then 5.0 else if k == 1 then 10.0 else if k == 2 then 20.0 else 30.0
    ensures Sane(DEFAULT_CONFIG) && DEFAULT_CONFIG.maxRequests == 5
  {
    assert Pow(2.0, 1) == Pow(2.0, 0) * 2.0 && Pow(2.0, 2) == Pow(2.0, 1) * 2.0;
    if k >= 3 {
      assert Pow(2.0, 3) == Pow(2.0, 2) * 2.0;
      Doubles(k);
    }
  }

  lemma {:induction false} Doubles(k: nat)
    requires k >= 3
    ensures Pow(2.0, k) >= Pow(2.0, 3) >= 0.0
  {
    if k == 3 {
      assert Pow(2.0, 1) == 2.0 && Pow(2.0, 2) == 4.0 && Pow(2.0, 3) == 8.0;
    } else {
      Doubles(k - 1);
      assert Pow(2.0, k) == Pow(2.0, k - 1) * 2.0;
    }
  }
}
