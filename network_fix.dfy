/**
 * network-fix: check the Mac's wireless interface and repair it when it hangs. Every command
 * the script runs is an oracle: its output arrives as lines, its exit status as a number or a
 * flag, and a command that fails where the script uses `check_call`/`check_output` arrives as
 * an error.
 */
module NetworkFix {
  import opened Wrappers
  import opened Strings

  // ------------------------------------------------------------------
  // getDefaultRoute

  /** The index of the first line starting with "default", if any (the `for` loop and its `else`). */
  function FirstDefault(lines: seq<string>): (r: Option<nat>)
    ensures r.Some? ==> r.value < |lines| && StartsWith(lines[r.value], "default")
    ensures forall j :: 0 <= j < |lines| && (r.None? || j < r.value) ==> !StartsWith(lines[j], "default")
  {
    if lines == [] then None
    else if StartsWith(lines[0], "default") then Some(0)
    else
      var r := FirstDefault(lines[1..]);
      assert forall j :: 1 <= j < |lines| ==> lines[j] == lines[1..][j - 1];
      if r.None? then None else Some(r.value + 1)
  }

  /**
   * `getDefaultRoute` over the lines of `netstat -rn`: the second field of the first "default"
   * line; `None` without such a line; an `IndexError` when that line has a single field.
   */
  function DefaultRoute(lines: seq<string>): (r: Result<Option<string>>)
    ensures r.Ok? && r.value.None? <==> FirstDefault(lines).None?
    ensures r.Ok? && r.value.Some? ==>
      var w := Words(lines[FirstDefault(lines).value]); |w| >= 2 && r.value.value == w[1]
    ensures r.Err? <==> FirstDefault(lines).Some? && |Words(lines[FirstDefault(lines).value])| < 2
  {
    var i := FirstDefault(lines);
    if i.None? then Ok(None)
    else
      var fields := Words(lines[i.value]);
      if |fields| < 2 then Err("IndexError") else Ok(Some(fields[1]))
  }

  /** A route table line as `netstat -rn` prints it: "default", the gateway, then the flags. */
  function RouteLine(gateway: string, rest: string): string {
    "default" + (" " + (gateway + (" " + rest)))
  }

  lemma {:induction false} RouteLineWords(gateway: string, rest: string)
    requires gateway != [] && NoSpace(gateway)
    ensures StartsWith(RouteLine(gateway, rest), "default")
    ensures |Words(RouteLine(gateway, rest))| >= 2 && Words(RouteLine(gateway, rest))[1] == gateway
  {
    WordsCons("default", gateway + (" " + rest));
    WordsCons(gateway, rest);
  }

  /** The first "default" line of the route table gives its gateway. */
  lemma {:induction false} DefaultRouteOf(before: seq<string>, gateway: string, rest: string, after: seq<string>)
    requires forall j :: 0 <= j < |before| ==> !StartsWith(before[j], "default")
    requires gateway != [] && NoSpace(gateway)
    ensures DefaultRoute(before + [RouteLine(gateway, rest)] + after) == Ok(Some(gateway))
  {
    var lines := before + [RouteLine(gateway, rest)] + after;
    RouteLineWords(gateway, rest);
    assert lines[|before|] == RouteLine(gateway, rest);
    assert forall j :: 0 <= j < |before| ==> lines[j] == before[j];
    FirstDefaultIs(lines, |before|);
  }

  lemma {:induction false} FirstDefaultIs(lines: seq<string>, i: nat)
    requires i < |lines| && StartsWith(lines[i], "default")
    requires forall j :: 0 <= j < i ==> !StartsWith(lines[j], "default")
    ensures FirstDefault(lines) == Some(i)
  {
  }

  // ------------------------------------------------------------------
  // wait_for_default_route

  /**
   * `wait_for_default_route`: query the route (the `k`th query answers `route(k)`) until one
   * appears, at most `maxTries` times. Returns whether a route appeared and how many queries
   * were made; a failing query ends the wait with its error.
   */
  method WaitForDefaultRoute(route: nat -> Result<Option<string>>, maxTries: nat)
    returns (r: Result<bool>, queries: nat)
    requires maxTries >= 1
    ensures 1 <= queries <= maxTries
    ensures forall k :: 0 <= k < queries - 1 ==> route(k) == Ok(None)
    ensures r.Err? <==> route(queries - 1).Err?
    ensures r == Ok(true) <==> route(queries - 1).Ok? && route(queries - 1).value.Some?
    ensures r == Ok(false) ==> queries == maxTries && route(queries - 1) == Ok(None)
  {
    var tries := maxTries;
    queries := 1;
    var defaultRoute := route(0);
    if defaultRoute.Err? {
      return Err(defaultRoute.msg), queries;
    }
    while defaultRoute.value.None?
      invariant 1 <= queries <= maxTries && tries == maxTries - queries + 1
      invariant defaultRoute == route(queries - 1) && defaultRoute.Ok?
      invariant forall k :: 0 <= k < queries - 1 ==> route(k) == Ok(None)
      decreases tries
    {
      tries := tries - 1;
      if tries == 0 {
        return Ok(false), queries;
      }
      defaultRoute := route(queries);
      queries := queries + 1;
      if defaultRoute.Err? {
        return Err(defaultRoute.msg), queries;
      }
    }
    return Ok(true), queries;
  }

  // ------------------------------------------------------------------
  // checkAirport

  /** `checkAirport` over the lines of `networksetup -getairportpower en1`. */
  function CheckAirport(lines: seq<string>): (r: Result<bool>)
    ensures r == Ok(false) <==> lines != [] && EndsWith(lines[0], "Off")
    ensures r == Ok(true) <==> lines != [] && !EndsWith(lines[0], "Off") && EndsWith(lines[0], "On")
  {
    if lines == [] then Err("IndexError")
    else if EndsWith(lines[0], "Off") then Ok(false)
    else if EndsWith(lines[0], "On") then Ok(true)
    else Err("Could not determine status of airport")
  }

  lemma {:induction false} CheckAirportOfOutput(prefix: string)
    ensures CheckAirport(["AirPort: " + prefix + "On"]) == Ok(true)
    ensures CheckAirport(["AirPort: " + prefix + "Off"]) == Ok(false)
  {
    var on := "AirPort: " + prefix + "On";
    var off := "AirPort: " + prefix + "Off";
    assert on[|on| - 2..] == "On" && on[|on| - 1] == 'n';
    assert off[|off| - 3..] == "Off";
  }

  // ------------------------------------------------------------------
  // checkAndFixNetwork

  /** What the commands run by one `checkAndFixNetwork` answer, in the order they are run. */
  datatype Env = Env(
    airport: Result<bool>,            // first checkAirport
    powerOn: bool,                    // power_on_airport succeeded
    firstWait: Result<bool>,          // wait_for_default_route after powering on
    route: Result<Option<string>>,    // getDefaultRoute
    reachable: bool,                  // ping of the default router succeeded
    bounce: bool,                     // both `ifconfig` calls succeeded
    airportAfter: Result<bool>,       // checkAirport after the bounce
    powerOnAfter: bool,               // power_on_airport after the bounce succeeded
    secondWait: Result<bool>,         // wait_for_default_route after the bounce
    routeAfter: Result<Option<string>>, // getDefaultRoute after the bounce
    reachableAfter: bool)             // ping of that router succeeded

  datatype Action = PowerOn | Ping(router: string) | Bounce | Flush

  /** The first look found the airport on (or powered it on) but no reachable default router. */
  predicate FirstCheckFailed(env: Env) {
    env.airport.Ok? && (env.airport.value || (env.powerOn && env.firstWait.Ok?)) &&
    env.route.Ok? && !(env.route.value.Some? && env.reachable)
  }

  /**
   * `checkAndFixNetwork`: `Ok(false)` when nothing needed fixing, `Ok(true)` when the network
   * was repaired, an error otherwise. `actions` are the repairs and pings it ran, in order.
   */
  method CheckAndFixNetwork(env: Env) returns (r: Result<bool>, actions: seq<Action>)
    ensures r == Ok(false) <==> env.airport == Ok(true) && env.route.Ok? && env.route.value.Some? && env.reachable
    ensures r == Ok(true) ==> PowerOn in actions || Bounce in actions
    ensures r.Ok? ==> actions != [] && actions[|actions| - 1].Ping?
    ensures Bounce in actions <==> FirstCheckFailed(env)
    ensures (Bounce in actions && r.Ok? ==>
      env.routeAfter.Ok? && env.routeAfter.value.Some? && env.reachableAfter &&
      actions[|actions| - 1] == Ping(env.routeAfter.value.value))
    ensures (FirstCheckFailed(env) && !(env.routeAfter.Ok? && env.routeAfter.value.Some? && env.reachableAfter) ==>
      r.Err?)
  {
    actions := [];
    var fixed := false;
    if env.airport.Err? {
      return Err(env.airport.msg), actions;
    }
    if !env.airport.value {
      fixed := true;
      actions := actions + [PowerOn];
      if !env.powerOn {
        return Err("Failed to power on airport"), actions;
      }
      if env.firstWait.Err? {
        return Err(env.firstWait.msg), actions;
      }
    }
    if env.route.Err? {
      return Err(env.route.msg), actions;
    }
    if env.route.value.Some? {
      actions := actions + [Ping(env.route.value.value)];
      if env.reachable {
        return Ok(fixed), actions;
      }
    }
    var repair;
    r, repair := BounceAndRecheck(env);
    actions := actions + repair;
  }

  /**
   * The repair half of `checkAndFixNetwork`: bounce the interface, power the airport on if it
   * went off, flush the routes, wait, and ping the new default router. It ends `Ok(true)` only
   * when that router answers, and bounces the interface exactly once.
   */
  method BounceAndRecheck(env: Env) returns (r: Result<bool>, actions: seq<Action>)
    ensures actions != [] && actions[0] == Bounce && Bounce !in actions[1..]
    ensures r.Ok? ==> r == Ok(true) && actions[|actions| - 1].Ping?
    ensures (r.Ok? ==>
      env.routeAfter.Ok? && env.routeAfter.value.Some? && env.reachableAfter &&
      actions[|actions| - 1] == Ping(env.routeAfter.value.value))
    ensures !(env.routeAfter.Ok? && env.routeAfter.value.Some? && env.reachableAfter) ==> r.Err?
  {
    actions := [Bounce];
    if !env.bounce {
      return Err("CalledProcessError"), actions;
    }
    if env.airportAfter.Err? {
      return Err(env.airportAfter.msg), actions;
    }
    if !env.airportAfter.value {
      actions := actions + [PowerOn];
      if !env.powerOnAfter {
        return Err("Failed to power on airport."), actions;
      }
    }
    actions := actions + [Flush];
    if env.secondWait.Err? {
      return Err(env.secondWait.msg), actions;
    }
    if env.routeAfter.Err? {
      return Err(env.routeAfter.msg), actions;
    }
    if env.routeAfter.value.None? {
      // `ping` cannot be given `None` as its address
      return Err("TypeError"), actions;
    }
    actions := actions + [Ping(env.routeAfter.value.value)];
    if !env.reachableAfter {
      return Err("Cannot reach the default router after interface bounce."), actions;
    }
    return Ok(true), actions;
  }

  // ------------------------------------------------------------------
  // main

  /** `main` without `--continuous`: 1 when nothing was fixed, 0 when something was; errors escape. */
  function ExitStatus(r: Result<bool>): (status: Result<int>)
    ensures status.Ok? <==> r.Ok?
    ensures status == Ok(1) <==> r == Ok(false)
  {
    if r.Err? then Err(r.msg) else if r.value then Ok(0) else Ok(1)
  }

  function Failures(results: seq<Result<bool>>): nat {
    if results == [] then 0
    else Failures(results[..|results| - 1]) + (if results[|results| - 1] == Ok(true) then 1 else 0)
  }

  lemma {:induction false} FailuresBounded(results: seq<Result<bool>>)
    ensures Failures(results) <= |results|
  {
    if results != [] {
      FailuresBounded(results[..|results| - 1]);
    }
  }

  /** The failure rate `main --continuous` prints, in percent (integer division of naturals). */
  function Rate(failures: nat, totalRuns: nat): (pct: nat)
    requires 1 <= totalRuns && failures <= totalRuns
    ensures pct <= 100
    ensures pct * totalRuns <= failures * 100 < (pct + 1) * totalRuns
  {
    failures * 100 / totalRuns
  }

  /**
   * `main --continuous`, over the successive results of `checkAndFixNetwork`: each run is
   * counted before it starts, each run that had to fix something counts as a failure, and the
   * rate is printed after each run; the first error ends `main` with that run counted.
   */
  method Continuous(results: seq<Result<bool>>) returns (totalRuns: nat, failures: nat, rates: seq<nat>)
    ensures totalRuns <= |results|
    ensures forall k :: 0 <= k < totalRuns - 1 ==> results[k].Ok?
    ensures totalRuns < |results| ==> totalRuns == 0 || results[totalRuns - 1].Err?
    ensures |rates| == if totalRuns > 0 && results[totalRuns - 1].Err? then totalRuns - 1 else totalRuns
    ensures failures == Failures(results[..|rates|]) && failures <= |rates|
    ensures forall k :: 0 <= k < |rates| ==> rates[k] <= 100
  {
    totalRuns, failures, rates := 0, 0, [];
    while totalRuns < |results|
      invariant totalRuns <= |results| && |rates| == totalRuns
      invariant forall k :: 0 <= k < totalRuns ==> results[k].Ok?
      invariant failures == Failures(results[..totalRuns]) && failures <= totalRuns
      invariant forall k :: 0 <= k < |rates| ==> rates[k] <= 100
    {
      assert results[..totalRuns + 1][..totalRuns] == results[..totalRuns];
      totalRuns := totalRuns + 1;
      var r := results[totalRuns - 1];
      if r.Err? {
        return;
      }
      if r.value {
        failures := failures + 1;
      }
      rates := rates + [Rate(failures, totalRuns)];
    }
  }
}
