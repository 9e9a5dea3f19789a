/**
 * Properties of whole runs: one ungated run (`InjectInternal`, which a forced
 * injection repeats), any number of them, and the exactly-once `Inject`.
 */
module Runs {
  import opened Options
  import opened Resolver
  import opened Handlers
  import opened Guard
  import opened Pipeline
  import opened Properties

  /** `n` ungated runs in a row, as repeated forced injections do. */
  function ForceInjectN(env: Host, s: State, n: nat): State
  {
    if n == 0 then s else InjectInternalRun(env, ForceInjectN(env, s, n - 1)).state
  }

  /** `n` calls of `Inject` in a row. */
  function InjectN(env: Host, s: State, n: nat): State
  {
    if n == 0 then s else InjectSpec(env, InjectN(env, s, n - 1))
  }

  /** `after` is `before`, or `before` with one marked MVC filter appended. */
  predicate MvcAddedAtMostOne(before: seq<MvcEntry>, after: seq<MvcEntry>)
  {
    after == before || (|after| == |before| + 1 && after[..|before|] == before && MarkedMvc(after[|before|]))
  }

  /** `after` is `before`, or `before` with one marked logger appended. */
  predicate LoggersAddedAtMostOne(before: seq<Obj>, after: seq<Obj>)
  {
    after == before || (|after| == |before| + 1 && after[..|before|] == before && Marked(TypeOf(after[|before|])))
  }

  /** The trace of host actions once the telemetry setup and the dynamic module succeeded. */
  function SetupTrace(s: State): seq<Action>
  {
    s.performed + TelemetrySetup + ModuleSetup
  }

  /**
   * One ungated run appends at most one wrapper to each registry, each time
   * with the telemetry client created by that run, and only to a registry
   * holding no marked object; it never touches `init`.
   */
  lemma InjectInternalRegistries(env: Host, s: State)
    ensures var a := InjectInternalRun(env, s);
      && a.state.init == s.init
      && (a.state.filters == s.filters ||
          (!HasMarkedMvc(s.filters) && a.state.filters == s.filters + [InstalledMvcEntry(TelemetryClient(s.clients))]))
      && (a.state.loggers == s.loggers ||
          (!HasMarkedLogger(s.loggers) && a.state.loggers == s.loggers + [InstalledLogger(TelemetryClient(s.clients))]))
  {
    var client := TelemetryClient(s.clients);
    var p := FirstFailure(env, TelemetrySetup);
    var q := FirstFailure(env, ModuleSetup);
    if p.failure.None? && q.failure.None? {
      var trace := s.performed + p.performed + q.performed;
      MvcStepOutcome(env, client, s.filters, trace);
      var mvc := MvcStep(env, client, s.filters, trace);
      if mvc.returned.Normal? {
        WebApiStepOutcome(env, client, s.loggers, mvc.performed);
      }
    }
  }

  /**
   * Failure isolation: after the shared setup, the MVC step's outcome decides
   * the filters; if it returned normally (installed, skipped, or a resolution
   * failure it caught) the WebApi step runs as usual, and if an exception
   * escaped it, the WebApi step is skipped and the exception reaches `Inject`.
   */
  lemma KindFailureIsolation(env: Host, s: State)
    requires AllSucceed(env, TelemetrySetup) && AllSucceed(env, ModuleSetup)
    ensures var client := TelemetryClient(s.clients);
      var mvc := MvcStep(env, client, s.filters, SetupTrace(s));
      var a := InjectInternalRun(env, s);
      && a.state.filters == mvc.registry
      && (mvc.returned.Normal? ==> a.state.loggers == WebApiStep(env, client, s.loggers, mvc.performed).registry)
      && (mvc.returned.Threw? ==> a.state.loggers == s.loggers && a.escaped == Some(mvc.returned.error))
  {
    ProbePerformsPrefix(env, TelemetrySetup);
    ProbePerformsPrefix(env, ModuleSetup);
    ProbeFailsIffSomeActionFails(env, TelemetrySetup);
    ProbeFailsIffSomeActionFails(env, ModuleSetup);
  }

  /**
   * A failing telemetry lookup (or telemetry client creation) is not caught by
   * any kind: it escapes `InjectInternal` before either registry is read, and
   * `Inject` logs it and leaves `init` unset so that a later call retries.
   */
  lemma TelemetryFailureEscapes(env: Host, s: State)
    requires !AllSucceed(env, TelemetrySetup)
    ensures var a := InjectInternalRun(env, s);
      && a.escaped.Some?
      && a.escaped == FirstFailure(env, TelemetrySetup).failure
      && a.state.filters == s.filters && a.state.loggers == s.loggers
      && a.state.events == s.events + [InjectionStarted]
      && a.state.performed == s.performed + FirstFailure(env, TelemetrySetup).performed
    ensures !s.init ==>
      && !InjectSpec(env, s).init
      && InjectSpec(env, s).events == s.events + [InjectionStarted, UnknownError(FirstFailure(env, TelemetrySetup).failure.value)]
  {
    ProbeFailsIffSomeActionFails(env, TelemetrySetup);
  }

  /**
   * Any number of forced injections adds at most one wrapper to each registry,
   * and none to a registry that already holds a marked object.
   */
  lemma {:induction false} ForceInjectInstallsAtMostOnce(env: Host, s: State, n: nat)
    ensures MvcAddedAtMostOne(s.filters, ForceInjectN(env, s, n).filters)
    ensures LoggersAddedAtMostOne(s.loggers, ForceInjectN(env, s, n).loggers)
    ensures HasMarkedMvc(s.filters) ==> ForceInjectN(env, s, n).filters == s.filters
    ensures HasMarkedLogger(s.loggers) ==> ForceInjectN(env, s, n).loggers == s.loggers
  {
    if n > 0 {
      var t := ForceInjectN(env, s, n - 1);
      ForceInjectInstallsAtMostOnce(env, s, n - 1);
      InjectInternalRegistries(env, t);
      StepAddsAtMostOne(s, t, InjectInternalRun(env, t).state);
    }
  }

  /** The induction step shared by forced and gated runs. */
  lemma StepAddsAtMostOne(s: State, t: State, u: State)
    requires MvcAddedAtMostOne(s.filters, t.filters) && LoggersAddedAtMostOne(s.loggers, t.loggers)
    requires HasMarkedMvc(s.filters) ==> t.filters == s.filters
    requires HasMarkedLogger(s.loggers) ==> t.loggers == s.loggers
    requires u.filters == t.filters || (!HasMarkedMvc(t.filters) && |u.filters| == |t.filters| + 1
      && u.filters[..|t.filters|] == t.filters && MarkedMvc(u.filters[|t.filters|]))
    requires u.loggers == t.loggers || (!HasMarkedLogger(t.loggers) && |u.loggers| == |t.loggers| + 1
      && u.loggers[..|t.loggers|] == t.loggers && Marked(TypeOf(u.loggers[|t.loggers|])))
    ensures MvcAddedAtMostOne(s.filters, u.filters) && LoggersAddedAtMostOne(s.loggers, u.loggers)
    ensures HasMarkedMvc(s.filters) ==> u.filters == s.filters
    ensures HasMarkedLogger(s.loggers) ==> u.loggers == s.loggers
  {
    if t.filters != s.filters {
      assert MarkedMvc(t.filters[|s.filters|]);
    }
    if t.loggers != s.loggers {
      assert Marked(TypeOf(t.loggers[|s.loggers|]));
    }
  }

  /**
   * The gate: once `init` is set `Inject` changes nothing; otherwise it sets
   * `init` exactly when the ungated run returned normally, and logs the
   * escaped exception as an unknown error when it did not.
   */
  lemma InjectGate(env: Host, s: State)
    ensures s.init ==> InjectSpec(env, s) == s
    ensures InjectSpec(env, s).init <==> s.init || InjectInternalRun(env, s).escaped.None?
    ensures !s.init ==>
      var a := InjectInternalRun(env, s);
      && InjectSpec(env, s).filters == a.state.filters
      && InjectSpec(env, s).loggers == a.state.loggers
      && InjectSpec(env, s).events ==
         a.state.events + (if a.escaped.None? then [] else [UnknownError(a.escaped.value)])
  {
  }

  /** After a successful `Inject`, any number of further calls leave the whole state as it is. */
  lemma {:induction false} InjectRunsOnce(env: Host, s: State, n: nat)
    requires InjectSpec(env, s).init
    ensures InjectN(env, InjectSpec(env, s), n) == InjectSpec(env, s)
  {
    if n > 0 {
      InjectRunsOnce(env, s, n - 1);
    }
  }

  /**
   * Any number of `Inject` calls, including retries after escaped exceptions,
   * adds at most one wrapper to each registry, and none to a registry that
   * already holds a marked object.
   */
  lemma {:induction false} InjectInstallsAtMostOnce(env: Host, s: State, n: nat)
    ensures MvcAddedAtMostOne(s.filters, InjectN(env, s, n).filters)
    ensures LoggersAddedAtMostOne(s.loggers, InjectN(env, s, n).loggers)
    ensures HasMarkedMvc(s.filters) ==> InjectN(env, s, n).filters == s.filters
    ensures HasMarkedLogger(s.loggers) ==> InjectN(env, s, n).loggers == s.loggers
  {
    if n > 0 {
      var t := InjectN(env, s, n - 1);
      InjectInstallsAtMostOnce(env, s, n - 1);
      InjectInternalRegistries(env, t);
      StepAddsAtMostOne(s, t, InjectSpec(env, t));
    }
  }
}
