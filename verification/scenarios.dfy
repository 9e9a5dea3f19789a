/**
 * End-to-end scenarios the injector's tests exercise, stated for every host
 * and starting state that fits them.
 */
module Scenarios {
  import opened Options
  import opened Resolver
  import opened Handlers
  import opened Guard
  import opened Pipeline
  import opened Properties
  import opened Runs

  /** A host with ASP.NET 5 or later where every lookup and operation succeeds. */
  predicate CompleteHost(env: Host)
  {
    && env.missing == {} && env.faulty == {}
    && env.mvcVersion.major >= MinimumMvcVersion && env.webApiVersion.major >= MinimumWebApiVersion
  }

  /**
   * Empty registries and a complete host: one ungated run (what the tests call
   * through `InjectInternal` and `ForceInject`, whatever `init` holds) raises
   * nothing and installs exactly one MVC filter and one WebApi logger; a
   * guard-satisfying exception `e` given to either yields exactly one record
   * of `e`, followed by the base call. Through the gated `Inject` from a fresh
   * process the same registries result and `init` is set.
   */
  lemma FreshInstallThenTrack(env: Host, s: State, e: Exception)
    requires CompleteHost(env)
    requires s.filters == [] && s.loggers == []
    ensures var a := InjectInternalRun(env, s);
      var t := a.state;
      && a.escaped.None?
      && |t.filters| == 1 && t.filters[0].Filter? && t.filters[0].instance.Some?
      && t.filters[0].instance.value.MvcWrapper?
      && |t.loggers| == 1 && t.loggers[0].WebApiWrapper?
      && (var h := t.filters[0].instance.value.mvc;
          var ctx := Some(MvcExceptionContext(Some(HttpContext(true)), Some(e)));
          h.OnException(ctx) == [TrackException(h.telemetryClient, ExceptionTelemetry(e)), BaseOnException(ctx)])
      && (var l := t.loggers[0].webApi;
          var lctx := Some(LoggerContext(Some(e)));
          l.Log(lctx) == [TrackException(l.telemetryClient, ExceptionTelemetry(e)), BaseLog(lctx)])
    ensures !s.init ==>
      var t := InjectSpec(env, s);
      && t.init && t.filters == InjectInternalRun(env, s).state.filters
      && t.loggers == InjectInternalRun(env, s).state.loggers
  {
    var client := TelemetryClient(s.clients);
    CompleteHostNeverFails(env, TelemetrySetup);
    CompleteHostNeverFails(env, ModuleSetup);
    KindFailureIsolation(env, s);
    var mvc := MvcStep(env, client, s.filters, SetupTrace(s));
    MvcStepOutcome(env, client, s.filters, SetupTrace(s));
    CompleteHostNeverFails(env, [Lookup(HandleErrorType)]);
    CompleteHostNeverFails(env, MvcGuardSetup);
    CompleteHostNeverFails(env, MvcSynthesis);
    WebApiStepOutcome(env, client, s.loggers, mvc.performed);
    CompleteHostNeverFails(env, [Lookup(ExceptionLoggerType)]);
    CompleteHostNeverFails(env, WebApiGuardSetup);
    CompleteHostNeverFails(env, WebApiSynthesis);
  }

  /**
   * A registry that starts with one marked filter `m` (another framework's
   * wrapper) still holds exactly `m` after any number of ungated runs, and
   * after any number of `Inject` calls.
   */
  lemma PreInstalledFilterKept(env: Host, s: State, m: Obj, n: nat)
    requires Marked(TypeOf(m)) && s.filters == [Filter(Some(m))]
    ensures ForceInjectN(env, s, n).filters == [Filter(Some(m))]
    ensures InjectN(env, s, n).filters == [Filter(Some(m))]
  {
    assert MarkedMvc(s.filters[0]);
    ForceInjectInstallsAtMostOnce(env, s, n);
    InjectInstallsAtMostOnce(env, s, n);
  }

  /** Once the shared setup succeeds, the kinds run on the setup's trace. */
  lemma SetupSucceeds(env: Host, s: State)
    requires AllSucceed(env, TelemetrySetup) && AllSucceed(env, ModuleSetup)
    ensures FirstFailure(env, TelemetrySetup) == Probe(None, TelemetrySetup)
    ensures FirstFailure(env, ModuleSetup) == Probe(None, ModuleSetup)
  {
    ProbePerformsPrefix(env, TelemetrySetup);
    ProbePerformsPrefix(env, ModuleSetup);
    ProbeFailsIffSomeActionFails(env, TelemetrySetup);
    ProbeFailsIffSomeActionFails(env, ModuleSetup);
  }

  /** The same for a pre-registered marked exception logger `m`. */
  lemma PreInstalledLoggerKept(env: Host, s: State, m: Obj, n: nat)
    requires Marked(TypeOf(m)) && s.loggers == [m]
    ensures ForceInjectN(env, s, n).loggers == [m]
    ensures InjectN(env, s, n).loggers == [m]
  {
    assert Marked(TypeOf(s.loggers[0]));
    ForceInjectInstallsAtMostOnce(env, s, n);
    InjectInstallsAtMostOnce(env, s, n);
  }

  /**
   * ASP.NET below version 5: `Inject` completes, installs nothing, and logs one
   * unsupported-version event per kind.
   */
  lemma UnsupportedVersionsInstallNothing(env: Host, s: State)
    requires !s.init
    requires AllSucceed(env, TelemetrySetup) && AllSucceed(env, ModuleSetup)
    requires HandleErrorType !in env.missing && ExceptionLoggerType !in env.missing
    requires env.mvcVersion.major < MinimumMvcVersion && env.webApiVersion.major < MinimumWebApiVersion
    ensures var t := InjectSpec(env, s);
      && t.init && t.filters == s.filters && t.loggers == s.loggers
      && t.events == s.events + [InjectionStarted, VersionNotSupported(env.mvcVersion, Mvc),
                                 VersionNotSupported(env.webApiVersion, WebApi), InjectionCompleted]
  {
    var client := TelemetryClient(s.clients);
    SetupSucceeds(env, s);
    MvcVersionGate(env, client, s.filters, SetupTrace(s));
    var mvc := MvcStep(env, client, s.filters, SetupTrace(s));
    WebApiVersionGate(env, client, s.loggers, mvc.performed);
  }

  /**
   * Neither host type present: `Inject` completes without an exception,
   * installs nothing, and logs one resolution failure per kind.
   */
  lemma AbsentHostTypesInstallNothing(env: Host, s: State)
    requires !s.init
    requires AllSucceed(env, TelemetrySetup) && AllSucceed(env, ModuleSetup)
    requires HandleErrorType in env.missing && ExceptionLoggerType in env.missing
    ensures var t := InjectSpec(env, s);
      && t.init && t.filters == s.filters && t.loggers == s.loggers
      && t.events == s.events + [InjectionStarted, InjectionFailed(Mvc, Resolution(HandleErrorType)),
                                 InjectionFailed(WebApi, Resolution(ExceptionLoggerType)), InjectionCompleted]
  {
    SetupSucceeds(env, s);
  }
}
