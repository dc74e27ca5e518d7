/** Provider slots and provider-wide cooldowns of src/stagemesh/concurrency.py.

    Every method of the limiter runs under its condition lock. `acquire` gives the lock up only in `wait`, so one pass of
    its loop is one atomic step; `AcquirePass` is that pass, and `World` interleaves the passes of any number of users.
    Times are whole units of a clock that does not run backwards; each test of a candidate reads the clock again.
 */
module ProviderLimiter {
  import opened Prelude

  type Provider = string

  /** A limit of None is no limit. */
  datatype Config = Config(limits: map<Provider, int>, defaultLimit: Option<int>)

  function LimitOf(config: Config, p: Provider): Option<int> {
    if p in config.limits then Some(config.limits[p]) else config.defaultLimit
  }

  function Get(m: map<Provider, int>, p: Provider): int {
    if p in m then m[p] else 0
  }

  predicate HasRoom(config: Config, active: map<Provider, int>, p: Provider) {
    LimitOf(config, p).None? || Get(active, p) < LimitOf(config, p).value
  }

  /** What one pass of `acquire` ends with: a slot, or nothing because every candidate cools down, or nothing yet. */
  datatype Outcome = Granted(provider: Provider) | AllCooling | AllFull

  /** The i-th candidate was cooling when its cooldown was tested. */
  predicate Cooling(until: map<Provider, int>, candidates: seq<Provider>, clock: seq<int>, i: nat)
    requires i < |candidates| == |clock|
  {
    Get(until, candidates[i]) > clock[i]
  }

  /** The rule: the first candidate in order that is not cooling and has room. */
  ghost predicate IsOutcome(
    config: Config, active: map<Provider, int>, until: map<Provider, int>, candidates: seq<Provider>, clock: seq<int>,
    r: Outcome)
    requires |candidates| == |clock|
  {
    match r
    case Granted(p) => exists i ::
      && 0 <= i < |candidates| && candidates[i] == p
      && !Cooling(until, candidates, clock, i) && HasRoom(config, active, p)
      && forall k :: 0 <= k < i ==> Cooling(until, candidates, clock, k) || !HasRoom(config, active, candidates[k])
    case AllCooling =>
      forall i :: 0 <= i < |candidates| ==> Cooling(until, candidates, clock, i)
    case AllFull =>
      && (exists i :: 0 <= i < |candidates| && !Cooling(until, candidates, clock, i))
      && forall i :: 0 <= i < |candidates| && !Cooling(until, candidates, clock, i) ==>
           !HasRoom(config, active, candidates[i])
  }

  function AfterPass(active: map<Provider, int>, r: Outcome): map<Provider, int> {
    if r.Granted? then active[r.provider := Get(active, r.provider) + 1] else active
  }

  function AfterRelease(active: map<Provider, int>, p: Provider): map<Provider, int> {
    active[p := if Get(active, p) - 1 > 0 then Get(active, p) - 1 else 0]
  }

  class ProviderLimiter {
    const config: Config
    var active: map<Provider, int>
    var cooldownUntil: map<Provider, int>
    var reasons: map<Provider, string>

    constructor (config: Config)
      ensures this.config == config && active == map[] && cooldownUntil == map[] && reasons == map[]
    {
      this.config := config;
      active, cooldownUntil, reasons := map[], map[], map[];
    }

    /** One pass of the loop of `acquire`. */
    method AcquirePass(candidates: seq<Provider>, clock: seq<int>) returns (r: Outcome)
      requires |candidates| == |clock|
      modifies this`active
      ensures IsOutcome(config, old(active), cooldownUntil, candidates, clock, r)
      ensures active == AfterPass(old(active), r)
    {
      var usable: seq<nat> := [];
      for i := 0 to |candidates|
        invariant forall m :: 0 <= m < |usable| ==> usable[m] < i
        invariant forall k :: k in usable ==> k < i && !Cooling(cooldownUntil, candidates, clock, k)
        invariant forall k: nat :: k < i && !Cooling(cooldownUntil, candidates, clock, k) ==> k in usable
        invariant forall m, n :: 0 <= m < n < |usable| ==> usable[m] < usable[n]
      {
        if !Cooling(cooldownUntil, candidates, clock, i) {
          usable := usable + [i];
        }
      }
      if usable == [] {
        return AllCooling;
      }
      assert usable[0] in usable;
      for j := 0 to |usable|
        invariant active == old(active) && forall m :: 0 <= m < |usable| ==> usable[m] < |candidates|
        invariant forall m :: 0 <= m < j ==> !HasRoom(config, active, candidates[usable[m]])
      {
        var name := candidates[usable[j]];
        assert usable[j] in usable;
        if HasRoom(config, active, name) {
          active := active[name := Get(active, name) + 1];
          return Granted(name);
        }
      }
      return AllFull;
    }

    method Release(p: Provider)
      modifies this`active
      ensures active == old(active)[p := if p in old(active) && old(active)[p] > 1 then old(active)[p] - 1 else 0]
      ensures active == AfterRelease(old(active), p)
    {
      active := active[p := if Get(active, p) - 1 > 0 then Get(active, p) - 1 else 0];
    }

    /** A later call replaces the deadline of an earlier one, also by a nearer deadline. */
    method CoolDown(p: Provider, seconds: int, reason: string, now: int)
      modifies this`cooldownUntil, this`reasons
      ensures seconds <= 0 ==> cooldownUntil == old(cooldownUntil) && reasons == old(reasons)
      ensures seconds > 0 ==> cooldownUntil == old(cooldownUntil)[p := now + seconds]
      ensures seconds > 0 ==> reasons == old(reasons)[p := reason]
    {
      if seconds <= 0 {
        return;
      }
      cooldownUntil := cooldownUntil[p := now + seconds];
      reasons := reasons[p := reason];
    }
  }

  // ---------------------------------------------------------------------------------------------------------------
  // Any interleaving of `slot` users
  // ---------------------------------------------------------------------------------------------------------------

  type User = nat

  /** The limiter's fields, the slots that users hold, and the clock. */
  datatype World = World(
    active: map<Provider, int>, until: map<Provider, int>, holding: map<User, Provider>, time: int)

  datatype Event =
    | Pass(user: User, candidates: seq<Provider>, clock: seq<int>, outcome: Outcome)   // one pass of acquire
    | Leave(user: User)                                                                 // the slot's body ends
    | CoolDown(provider: Provider, seconds: int)
    | Tick(time: int)

  /** The readings of one pass, in the order they were taken. */
  ghost predicate ReadsForward(clock: seq<int>, time: int) {
    && (forall i :: 0 <= i < |clock| ==> time <= clock[i])
    && (forall i, j :: 0 <= i < j < |clock| ==> clock[i] <= clock[j])
  }

  function LastReading(clock: seq<int>, time: int): int {
    if clock == [] then time else clock[|clock| - 1]
  }

  ghost predicate Step(config: Config, w: World, e: Event, v: World) {
    match e
    case Pass(u, candidates, clock, r) =>
      && u !in w.holding && |candidates| == |clock| && ReadsForward(clock, w.time)
      && IsOutcome(config, w.active, w.until, candidates, clock, r)
      && v == World(
           AfterPass(w.active, r), w.until,
           if r.Granted? then w.holding[u := r.provider] else w.holding,
           LastReading(clock, w.time))
    case Leave(u) =>
      && u in w.holding
      && v == w.(active := AfterRelease(w.active, w.holding[u]),
                 holding := map x | x in w.holding && x != u :: w.holding[x])
    case CoolDown(p, seconds) =>
      v == if seconds <= 0 then w else w.(until := w.until[p := w.time + seconds])
    case Tick(t) =>
      w.time <= t && v == w.(time := t)
  }

  ghost predicate IsRun(config: Config, ws: seq<World>, es: seq<Event>) {
    && |ws| == |es| + 1
    && ws[0].active == map[] && ws[0].until == map[] && ws[0].holding == map[]
    && forall i :: 0 <= i < |es| ==> Step(config, ws[i], es[i], ws[i + 1])
  }

  /** The users that hold a slot of `p`. */
  function Holders(w: World, p: Provider): set<User> {
    set u | u in w.holding && w.holding[u] == p
  }

  ghost predicate Invariant(config: Config, w: World) {
    forall p ::
      && Get(w.active, p) == |Holders(w, p)|
      && (LimitOf(config, p).Some? && Get(w.active, p) > 0 ==> Get(w.active, p) <= LimitOf(config, p).value)
  }

  lemma {:induction false} HoldersAfterGrant(w: World, u: User, q: Provider, p: Provider)
    requires u !in w.holding
    ensures var after := w.(holding := w.holding[u := q]);
      |Holders(after, p)| == |Holders(w, p)| + if p == q then 1 else 0
  {
    var after := w.(holding := w.holding[u := q]);
    if p == q {
      assert Holders(after, p) == Holders(w, p) + {u};
    } else {
      assert Holders(after, p) == Holders(w, p);
    }
  }

  lemma {:induction false} HoldersAfterLeave(w: World, u: User, p: Provider)
    requires u in w.holding
    ensures var after := w.(holding := map x | x in w.holding && x != u :: w.holding[x]);
      |Holders(after, p)| == |Holders(w, p)| - if p == w.holding[u] then 1 else 0
  {
    var after := w.(holding := map x | x in w.holding && x != u :: w.holding[x]);
    if p == w.holding[u] {
      assert Holders(after, p) == Holders(w, p) - {u};
    } else {
      assert Holders(after, p) == Holders(w, p);
    }
  }

  lemma {:induction false} GrantHadRoom(
    config: Config, active: map<Provider, int>, until: map<Provider, int>, candidates: seq<Provider>, clock: seq<int>,
    p: Provider)
    requires |candidates| == |clock| && IsOutcome(config, active, until, candidates, clock, Granted(p))
    ensures p in candidates && HasRoom(config, active, p)
  {
  }

  lemma {:induction false} PassKeepsInvariant(
    config: Config, w: World, u: User, candidates: seq<Provider>, clock: seq<int>, q: Provider, v: World)
    requires Invariant(config, w) && Step(config, w, Pass(u, candidates, clock, Granted(q)), v)
    ensures Invariant(config, v)
  {
    GrantHadRoom(config, w.active, w.until, candidates, clock, q);
    forall p
      ensures Get(v.active, p) == |Holders(v, p)|
      ensures LimitOf(config, p).Some? && Get(v.active, p) > 0 ==> Get(v.active, p) <= LimitOf(config, p).value
    {
      HoldersAfterGrant(w, u, q, p);
      assert Holders(v, p) == Holders(w.(holding := w.holding[u := q]), p);
      assert Get(w.active, p) == |Holders(w, p)|;
    }
  }

  lemma {:induction false} LeaveKeepsInvariant(config: Config, w: World, u: User, v: World)
    requires Invariant(config, w) && Step(config, w, Leave(u), v)
    ensures Invariant(config, v)
  {
    forall p
      ensures Get(v.active, p) == |Holders(v, p)|
      ensures LimitOf(config, p).Some? && Get(v.active, p) > 0 ==> Get(v.active, p) <= LimitOf(config, p).value
    {
      HoldersAfterLeave(w, u, p);
      assert Get(w.active, p) == |Holders(w, p)|;
    }
  }

  lemma {:induction false} StepKeepsInvariant(config: Config, w: World, e: Event, v: World)
    requires Invariant(config, w) && Step(config, w, e, v)
    ensures Invariant(config, v)
  {
    match e
    case Pass(u, candidates, clock, Granted(q)) =>
      PassKeepsInvariant(config, w, u, candidates, clock, q, v);
    case Leave(u) =>
      LeaveKeepsInvariant(config, w, u, v);
    case _ =>
      assert v.active == w.active && v.holding == w.holding;
      forall p
        ensures Get(v.active, p) == |Holders(v, p)|
        ensures LimitOf(config, p).Some? && Get(v.active, p) > 0 ==> Get(v.active, p) <= LimitOf(config, p).value
      {
        assert Get(w.active, p) == |Holders(w, p)| && Holders(v, p) == Holders(w, p);
      }
  }

  lemma {:induction false} RunKeepsInvariant(config: Config, ws: seq<World>, es: seq<Event>, i: nat)
    requires IsRun(config, ws, es) && i < |ws|
    ensures Invariant(config, ws[i])
  {
    if i > 0 {
      RunKeepsInvariant(config, ws, es, i - 1);
      StepKeepsInvariant(config, ws[i - 1], es[i - 1], ws[i]);
    } else {
      assert forall p :: Holders(ws[0], p) == {};
    }
  }

  /** A provider's own limit goes before the default one; without either there is no limit. */
  ghost predicate WithinLimit(config: Config, p: Provider, slots: nat) {
    && (p in config.limits ==> slots <= config.limits[p])
    && (p !in config.limits && config.defaultLimit.Some? ==> slots <= config.defaultLimit.value)
  }

  ghost predicate AtLimit(config: Config, p: Provider, slots: nat) {
    || (p in config.limits && slots >= config.limits[p])
    || (p !in config.limits && config.defaultLimit.Some? && slots >= config.defaultLimit.value)
  }

  /** In every interleaving the counters are the outstanding slots, and no provider has more than its limit. */
  lemma {:induction false} SlotsNeverExceedTheLimit(config: Config, ws: seq<World>, es: seq<Event>, i: nat, p: Provider)
    requires IsRun(config, ws, es) && i < |ws|
    ensures Get(ws[i].active, p) == |Holders(ws[i], p)|
    ensures Holders(ws[i], p) != {} ==> WithinLimit(config, p, |Holders(ws[i], p)|)
  {
    RunKeepsInvariant(config, ws, es, i);
    if Holders(ws[i], p) != {} {
      var u :| u in Holders(ws[i], p);
      assert |Holders(ws[i], p)| > 0;
    }
  }

  /** `max(0, ...)` in `release` is never needed: leaving gives back exactly one slot of one provider. */
  lemma {:induction false} LeavingGivesBackOneSlot(config: Config, ws: seq<World>, es: seq<Event>, i: nat, p: Provider)
    requires IsRun(config, ws, es) && i < |es| && es[i].Leave?
    ensures Get(ws[i + 1].active, p) == Get(ws[i].active, p) - if ws[i].holding[es[i].user] == p then 1 else 0
  {
    RunKeepsInvariant(config, ws, es, i);
    assert Step(config, ws[i], es[i], ws[i + 1]);
    var u := es[i].user;
    assert u in Holders(ws[i], ws[i].holding[u]);
    assert |Holders(ws[i], ws[i].holding[u])| > 0;
  }

  /** A slot is never granted to a provider that is cooling at the moment of the grant, and after the grant there are at
      most as many slots as the limit allows; every candidate before it was cooling or at its limit. */
  lemma {:induction false} GrantIsUsable(config: Config, ws: seq<World>, es: seq<Event>, i: nat)
    requires IsRun(config, ws, es) && i < |es| && es[i].Pass? && es[i].outcome.Granted?
    ensures var p := es[i].outcome.provider;
      && |es[i].clock| == |es[i].candidates|
      && (p in ws[i + 1].until ==> ws[i + 1].until[p] <= ws[i + 1].time)
      && es[i].user in Holders(ws[i + 1], p) && WithinLimit(config, p, |Holders(ws[i + 1], p)|)
      && exists n :: 0 <= n < |es[i].candidates| && es[i].candidates[n] == p
           && forall k :: 0 <= k < n ==> PassedOver(config, ws[i], es[i].candidates[k], es[i].clock[k])
  {
    assert Step(config, ws[i], es[i], ws[i + 1]);
    SlotsNeverExceedTheLimit(config, ws, es, i + 1, es[i].outcome.provider);
    RunKeepsInvariant(config, ws, es, i);
  }

  /** No cooldown of the provider is running at the reading of the clock; one that was never set ended at 0. */
  ghost predicate IsUsable(w: World, p: Provider, reading: int) {
    if p in w.until then w.until[p] <= reading else 0 <= reading
  }

  /** A candidate that a pass does not take: its cooldown is not over at the reading of the clock, or it has all its
      slots. */
  ghost predicate PassedOver(config: Config, w: World, p: Provider, reading: int) {
    !IsUsable(w, p, reading) || AtLimit(config, p, |Holders(w, p)|)
  }

  /** A pass that leaves its user waiting found every candidate that was not cooling at its limit. */
  lemma {:induction false} WaitersFoundEverythingFull(config: Config, ws: seq<World>, es: seq<Event>, i: nat, k: nat)
    requires IsRun(config, ws, es) && i < |es| && es[i].Pass? && es[i].outcome == AllFull
    requires k < |es[i].candidates|
    ensures |es[i].clock| == |es[i].candidates|
    ensures PassedOver(config, ws[i], es[i].candidates[k], es[i].clock[k])
    ensures exists n :: 0 <= n < |es[i].candidates| && IsUsable(ws[i], es[i].candidates[n], es[i].clock[n])
    ensures ws[i + 1].active == ws[i].active && ws[i + 1].holding == ws[i].holding
  {
    assert Step(config, ws[i], es[i], ws[i + 1]);
    RunKeepsInvariant(config, ws, es, i);
  }

  /** A pass gives up only when every candidate is cooling at its reading of the clock. */
  lemma {:induction false} GivenUpOnlyWhenAllCool(config: Config, ws: seq<World>, es: seq<Event>, i: nat, k: nat)
    requires IsRun(config, ws, es) && i < |es| && es[i].Pass? && es[i].outcome == AllCooling
    requires k < |es[i].candidates|
    ensures |es[i].clock| == |es[i].candidates| && !IsUsable(ws[i], es[i].candidates[k], es[i].clock[k])
    ensures ws[i + 1].active == ws[i].active && ws[i + 1].holding == ws[i].holding
  {
    assert Step(config, ws[i], es[i], ws[i + 1]);
    assert Cooling(ws[i].until, es[i].candidates, es[i].clock, k);
  }

  /** The outcome of a pass is determined by what the pass read. */
  lemma {:induction false} OutcomeIsDetermined(
    config: Config, active: map<Provider, int>, until: map<Provider, int>, candidates: seq<Provider>, clock: seq<int>,
    r: Outcome, q: Outcome)
    requires |candidates| == |clock|
    requires IsOutcome(config, active, until, candidates, clock, r)
    requires IsOutcome(config, active, until, candidates, clock, q)
    ensures r == q
  {
  }
}
