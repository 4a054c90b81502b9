/**
 TTL options of the cache. Durations are nanoseconds; jitter is computed in reals, with the random draw
 in [0, 1) as a parameter, and truncated to an integer as the conversion to time.Duration does.
 */
module CacheOptions {
  import opened Wrappers

  datatype Serialize = JSON | MessagePack

  const DEFAULT_EXPIRE: int := 24 * 3600 * 1_000_000_000
  const DEFAULT_JITTER_PERCENT: real := 0.10

  /** A functional option; the jittered one carries its optional percentage and its draw. */
  datatype Setting =
    | WithTTL(ttl: int)
    | WithTTLJitter(ttl: int, percents: seq<real>, draw: real)
    | WithMsgPack
    | WithJSON

  datatype Config = Config(expire: int, serialize: Serialize)

  function Truncate(x: real): int {
    if x >= 0.0 then x.Floor else -((-x).Floor)
  }

  /** min + draw * (max - min) around ttl. */
  function Spread(ttl: int, percent: real, draw: real): real {
    var jitter := ttl as real * percent;
    Between(ttl as real - jitter, ttl as real + jitter, draw)
  }

  function Between(lo: real, hi: real, draw: real): real {
    lo + Part(draw, hi - lo)
  }

  function Part(draw: real, width: real): real {
    draw * width
  }

  function Percent(percents: seq<real>): real {
    if |percents| > 0 && percents[0] > 0.0 then percents[0] else DEFAULT_JITTER_PERCENT
  }

  function Applied(c: Config, s: Setting): Config {
    match s
    case WithTTL(ttl) => if ttl > 0 then c.(expire := ttl) else c
    case WithTTLJitter(ttl, percents, draw) =>
      if ttl <= 0 then c else c.(expire := Truncate(Spread(ttl, Percent(percents), draw)))
    case WithMsgPack => c.(serialize := MessagePack)
    case WithJSON => c.(serialize := JSON)
  }

  /** The options in order; a nil option is skipped. */
  function AllApplied(c: Config, settings: seq<Option<Setting>>): Config
    decreases |settings|
  {
    if settings == [] then c else
    var most := AllApplied(c, settings[..|settings| - 1]);
    var last := settings[|settings| - 1];
    if last.None? then most else Applied(most, last.value)
  }

  /** Positive whatever options ran, jitter over 100% included. */
  function GetExpire(c: Config): (ttl: int)
    ensures ttl >= 1
    ensures c.expire >= 1 ==> ttl == c.expire
    ensures c.expire <= 0 ==> ttl == 24 * 3600 * 1_000_000_000
  {
    if c.expire <= 0 then DEFAULT_EXPIRE else c.expire
  }

  function ApplyJitter(d: int, draw: real): int {
    if d <= 0 then d else Truncate(Spread(d, DEFAULT_JITTER_PERCENT, draw))
  }

  function HighTrafficOpts(ttl: int, draw: real): seq<Option<Setting>> {
    [Some(WithTTLJitter(ttl, [], draw)), Some(WithMsgPack)]
  }

  predicate Draw(u: real) {
    0.0 <= u < 1.0
  }

  // ---------------------------------------------------------------- the Go object

  class Options {
    var expire: int
    var serialize: Serialize

    function Value(): Config
      reads this
    {
      Config(expire, serialize)
    }

    constructor Default()
      ensures Value() == Config(DEFAULT_EXPIRE, JSON)
    {
      expire, serialize := DEFAULT_EXPIRE, JSON;
    }

    constructor Copy(o: Options)
      ensures Value() == o.Value()
    {
      expire, serialize := o.expire, o.serialize;
    }

    /** What the closure of an option does to the Options it is given. */
    method Apply(s: Setting)
      modifies this
      ensures Value() == Applied(old(Value()), s)
    {
      match s
      case WithTTL(ttl) =>
        if ttl > 0 {
          expire := ttl;
        }
      case WithTTLJitter(ttl, percents, draw) =>
        if ttl <= 0 {
          return;
        }
        var percent := DEFAULT_JITTER_PERCENT;
        if |percents| > 0 && percents[0] > 0.0 {
          percent := percents[0];
        }
        expire := Truncate(Spread(ttl, percent, draw));
      case WithMsgPack => serialize := MessagePack;
      case WithJSON => serialize := JSON;
    }
  }

  /** A call's options: the cache's own are copied, never changed. */
  method ApplyOptions(base: Options, settings: seq<Option<Setting>>) returns (opt: Options)
    ensures fresh(opt) && opt.Value() == AllApplied(base.Value(), settings)
  {
    opt := new Options.Copy(base);
    for i := 0 to |settings|
      invariant fresh(opt) && opt.Value() == AllApplied(base.Value(), settings[..i])
    {
      assert settings[..i + 1][..i] == settings[..i];
      if settings[i].Some? {
        opt.Apply(settings[i].value);
      }
    }
    assert settings[..|settings|] == settings;
  }

  // ---------------------------------------------------------------- what a list of options amounts to

  /** The option sets the ttl; WithTTL and WithTTLJitter with a ttl of 0 or less do nothing. */
  predicate SetsTtl(s: Option<Setting>) {
    s.Some? && (s.value.WithTTL? || s.value.WithTTLJitter?) && s.value.ttl > 0
  }

  predicate SetsSerializer(s: Option<Setting>) {
    s.Some? && (s.value.WithMsgPack? || s.value.WithJSON?)
  }

  /** The last option that sets the ttl decides it, whatever stands between and after. */
  lemma {:induction false} LastTtlDecides(c: Config, settings: seq<Option<Setting>>, i: nat)
    requires i < |settings| && SetsTtl(settings[i]) && forall j :: i < j < |settings| ==> !SetsTtl(settings[j])
    ensures match settings[i].value
      case WithTTL(ttl) => AllApplied(c, settings).expire == ttl
      case WithTTLJitter(ttl, percents, draw) =>
        AllApplied(c, settings).expire == Truncate(Spread(ttl, Percent(percents), draw))
      case _ => false
    decreases |settings|
  {
    if i < |settings| - 1 {
      LastTtlDecides(c, settings[..|settings| - 1], i);
      assert !SetsTtl(settings[|settings| - 1]);
    }
  }

  lemma {:induction false} LastSerializerDecides(c: Config, settings: seq<Option<Setting>>, i: nat)
    requires i < |settings| && SetsSerializer(settings[i])
    requires forall j :: i < j < |settings| ==> !SetsSerializer(settings[j])
    ensures AllApplied(c, settings).serialize == if settings[i].value.WithMsgPack? then MessagePack else JSON
    decreases |settings|
  {
    if i < |settings| - 1 {
      LastSerializerDecides(c, settings[..|settings| - 1], i);
      assert !SetsSerializer(settings[|settings| - 1]);
    }
  }

  /** Without such an option the cache's own setting stays. */
  lemma {:induction false} DefaultsStay(c: Config, settings: seq<Option<Setting>>)
    ensures (forall j :: 0 <= j < |settings| ==> !SetsTtl(settings[j])) ==> AllApplied(c, settings).expire == c.expire
    ensures (forall j :: 0 <= j < |settings| ==> !SetsSerializer(settings[j])) ==>
      AllApplied(c, settings).serialize == c.serialize
    decreases |settings|
  {
    if settings != [] {
      DefaultsStay(c, settings[..|settings| - 1]);
      assert forall j :: 0 <= j < |settings| - 1 ==> settings[..|settings| - 1][j] == settings[j];
    }
  }

  // ---------------------------------------------------------------- how far jitter goes

  lemma Product(a: real, b: real)
    requires a >= 0.0 && b > 0.0
    ensures a * b >= 0.0 && (a > 0.0 ==> a * b > 0.0)
  {
  }

  lemma Shares(draw: real, width: real)
    ensures draw * width + (1.0 - draw) * width == width
  {
  }

  lemma PartBounds(draw: real, width: real)
    requires Draw(draw) && width > 0.0
    ensures 0.0 <= Part(draw, width) < width
  {
    Product(draw, width);
    Product(1.0 - draw, width);
    Shares(draw, width);
  }

  lemma InBetween(lo: real, hi: real, draw: real)
    requires Draw(draw) && lo < hi
    ensures lo <= Between(lo, hi, draw) < hi
  {
    PartBounds(draw, hi - lo);
  }

  lemma Distribute(d: real, percent: real)
    ensures d * (1.0 - percent) == d - d * percent && d * (1.0 + percent) == d + d * percent
  {
  }

  lemma SpreadBounds(ttl: int, percent: real, draw: real)
    requires ttl > 0 && percent > 0.0 && Draw(draw)
    ensures ttl as real - ttl as real * percent <= Spread(ttl, percent, draw) < ttl as real + ttl as real * percent
  {
    var jitter := ttl as real * percent;
    Product(ttl as real, percent);
    InBetween(ttl as real - jitter, ttl as real + jitter, draw);
  }

  lemma SpreadAtZero(ttl: int, percent: real)
    ensures Spread(ttl, percent, 0.0) == ttl as real - ttl as real * percent
  {
    var jitter := ttl as real * percent;
    StartsLow(ttl as real - jitter, ttl as real + jitter);
  }

  lemma StartsLow(lo: real, hi: real)
    ensures Between(lo, hi, 0.0) == lo
  {
  }

  /** The jittered ttl is used as drawn, for every draw, if and only if its lower end is at least 1ns;
      otherwise some draw falls back to the 24h default. */
  lemma JitterNeverFallsBack(c: Config, ttl: int, percent: real)
    requires ttl > 0 && percent > 0.0
    ensures (forall u {:trigger Draw(u)} :: Draw(u) ==>
               GetExpire(Applied(c, WithTTLJitter(ttl, [percent], u))) == Truncate(Spread(ttl, percent, u)))
      <==> ttl as real * (1.0 - percent) >= 1.0
  {
    Distribute(ttl as real, percent);
    if ttl as real * (1.0 - percent) >= 1.0 {
      forall u | Draw(u)
        ensures GetExpire(Applied(c, WithTTLJitter(ttl, [percent], u))) == Truncate(Spread(ttl, percent, u))
      {
        SpreadBounds(ttl, percent, u);
      }
    } else {
      SpreadAtZero(ttl, percent);
      assert Draw(0.0);
    }
  }

  /** The ttl is this exact number of nanoseconds, cut off toward zero. */
  predicate CutOff(ttl: int, exact: real) {
    if exact >= 0.0 then 0.0 <= ttl as real <= exact < ttl as real + 1.0
    else ttl as real - 1.0 < exact <= ttl as real <= 0.0
  }

  lemma TruncateCutsOff(x: real)
    ensures CutOff(Truncate(x), x)
  {
  }

  lemma Centred(d: real, jitter: real, draw: real)
    ensures Between(d - jitter, d + jitter, draw) == d + (2.0 * draw - 1.0) * jitter
  {
  }

  /** The draw moves the ttl evenly from one end of the range to the other: draw 0 is the lower end, 1/2 the
      ttl itself, and the upper end is approached. The range is the given percentage if there is a positive
      one, and 10% otherwise. */
  lemma JitterLaw(c: Config, ttl: int, percents: seq<real>, draw: real)
    requires ttl > 0
    ensures var percent := if percents != [] && percents[0] > 0.0 then percents[0] else 0.1;
      CutOff(Applied(c, WithTTLJitter(ttl, percents, draw)).expire,
             ttl as real + (2.0 * draw - 1.0) * (ttl as real * percent))
  {
    var percent := if percents != [] && percents[0] > 0.0 then percents[0] else 0.1;
    Centred(ttl as real, ttl as real * percent, draw);
    TruncateCutsOff(Spread(ttl, percent, draw));
  }

  lemma ApplyJitterLaw(d: int, draw: real)
    ensures if d <= 0 then ApplyJitter(d, draw) == d
            else CutOff(ApplyJitter(d, draw), d as real + (2.0 * draw - 1.0) * (d as real * 0.1))
  {
    if d > 0 {
      Centred(d as real, d as real * 0.1, draw);
      TruncateCutsOff(Spread(d, 0.1, draw));
    }
  }

  /** ApplyJitter never truncates a positive ttl to 0 if and only if the ttl is at least 2ns. */
  lemma JitterKeepsPositive(d: int)
    requires d > 0
    ensures (forall u {:trigger Draw(u)} :: Draw(u) ==> ApplyJitter(d, u) >= 1) <==> d >= 2
  {
    if d >= 2 {
      forall u | Draw(u) ensures ApplyJitter(d, u) >= 1 {
        SpreadBounds(d, DEFAULT_JITTER_PERCENT, u);
      }
    } else {
      SpreadAtZero(d, DEFAULT_JITTER_PERCENT);
      assert Draw(0.0) && ApplyJitter(d, 0.0) == 0;
    }
  }

  lemma ApplyJitterBounds(d: int, u: real)
    requires d > 0 && Draw(u)
    ensures 0.9 * d as real - 1.0 < ApplyJitter(d, u) as real < 1.1 * d as real
    ensures ApplyJitter(d, u) >= 0
  {
    SpreadBounds(d, DEFAULT_JITTER_PERCENT, u);
  }

  /** The preset chooses MessagePack, whatever the cache's default is, and jitters a positive ttl. */
  lemma {:induction false} HighTrafficConfig(c: Config, ttl: int, u: real)
    ensures AllApplied(c, HighTrafficOpts(ttl, u)) == Applied(Applied(c, WithTTLJitter(ttl, [], u)), WithMsgPack)
  {
    var s := HighTrafficOpts(ttl, u);
    assert s[..1] == [s[0]] && s[..1][..0] == [];
    assert AllApplied(c, s[..1]) == Applied(AllApplied(c, s[..1][..0]), s[0].value);
  }

  /** The ttl a pipelined write gets under the high-traffic preset: WithTTLJitter at its default percentage,
      then ApplyJitter. */
  function TwiceJittered(c: Config, ttl: int, u: real, v: real): int {
    ApplyJitter(GetExpire(AllApplied(c, HighTrafficOpts(ttl, u))), v)
  }

  lemma TwiceJitteredBounds(c: Config, ttl: int, u: real, v: real)
    requires ttl >= 2 && Draw(u) && Draw(v)
    ensures 0.81 * ttl as real - 1.9 < TwiceJittered(c, ttl, u, v) as real < 1.21 * ttl as real
  {
    HighTrafficConfig(c, ttl, u);
    ApplyJitterBounds(ttl, u);
    SpreadBounds(ttl, DEFAULT_JITTER_PERCENT, u);
    ApplyJitterBounds(ApplyJitter(ttl, u), v);
  }

  /** Twice jittered, a ttl stays within truncation error of [0.81 ttl, 1.21 ttl] for every two draws if and
      only if it is at least 2ns: at 1ns the first jitter can truncate to 0, which means 24 hours. */
  lemma JitterComposition(c: Config, ttl: int)
    requires ttl > 0
    ensures (forall u, v {:trigger Draw(u), Draw(v)} :: Draw(u) && Draw(v) ==>
               0.81 * ttl as real - 1.9 < TwiceJittered(c, ttl, u, v) as real < 1.21 * ttl as real)
      <==> ttl >= 2
  {
    if ttl >= 2 {
      forall u, v | Draw(u) && Draw(v)
        ensures 0.81 * ttl as real - 1.9 < TwiceJittered(c, ttl, u, v) as real < 1.21 * ttl as real
      {
        TwiceJitteredBounds(c, ttl, u, v);
      }
    } else {
      HighTrafficConfig(c, ttl, 0.0);
      SpreadAtZero(ttl, DEFAULT_JITTER_PERCENT);
      assert Draw(0.0);
      ApplyJitterBounds(DEFAULT_EXPIRE, 0.0);
      assert TwiceJittered(c, ttl, 0.0, 0.0) == ApplyJitter(DEFAULT_EXPIRE, 0.0);
    }
  }
}
