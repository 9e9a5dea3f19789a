/**
 * The injection pipelines as functions of the host and of the process state:
 * one per extension-point kind (`AddMvcFilter`, `AddWebApiExceptionLogger`),
 * the ungated run (`InjectInternal`) and the exactly-once entry point
 * (`Inject`). The class in module Injection is proved to follow them.
 */
module Pipeline {
  import opened Options
  import opened Resolver
  import opened Handlers
  import opened Guard

  const MinimumMvcVersion: nat := 5
  const MinimumWebApiVersion: nat := 5

  /** The telemetry SDK lookups and the creation of the telemetry client. */
  const TelemetrySetup: seq<Action> := [
    Lookup(TelemetryClientType), Lookup(ExceptionTelemetryType),
    Lookup(TrackExceptionMethod), Lookup(ExceptionTelemetryCtor), Op(CreateTelemetryClient)]

  /** The dynamic assembly and module that will hold the synthesized types. */
  const ModuleSetup: seq<Action> := [Op(DefineDynamicModule)]

  /** MVC: the global filter collection and the lookups of the guard, before the scan. */
  const MvcGuardSetup: seq<Action> := [
    Lookup(GlobalFilterCollectionType), Lookup(GlobalFiltersType), Lookup(GlobalFiltersFilters),
    Op(EnumerateGlobalFilters), Lookup(MvcFilterType), Lookup(FilterInstanceProperty)]

  /** MVC: everything resolved, built and invoked after the guard said "inject". */
  const MvcSynthesis: seq<Action> := [
    Lookup(MvcExceptionContextType), Lookup(MvcExceptionGetter), Lookup(ControllerContextType),
    Lookup(HttpContextGetter), Lookup(BaseOnExceptionMethod), Lookup(AddFilterMethod),
    Lookup(HttpContextBaseType), Lookup(IsCustomErrorEnabledGetter), Op(DefineMvcHandlerType),
    Lookup(AttributeUsageMembers), Lookup(HandleErrorDefaultCtor), Op(CreateMvcHandlerType),
    Op(CreateMvcHandler), Op(InvokeAddFilter)]

  /** WebApi: the context and service types, the services container and the guard's lookups. */
  const WebApiGuardSetup: seq<Action> := [
    Lookup(ExceptionLoggerContextType), Lookup(IExceptionLoggerType),
    Lookup(GlobalConfigurationType), Lookup(HttpConfigurationType), Lookup(ServicesContainerType),
    Lookup(GlobalConfigurationConfiguration), Lookup(ConfigurationServices),
    Lookup(GetServicesMethod), Op(EnumerateExceptionLoggers)]

  /** WebApi: everything resolved, built and invoked after the guard said "inject". */
  const WebApiSynthesis: seq<Action> := [
    Lookup(BaseLogMethod), Lookup(AddServiceMethod), Lookup(LoggerExceptionGetter),
    Lookup(ExceptionLoggerDefaultCtor), Op(DefineWebApiHandlerType), Op(CreateWebApiHandlerType),
    Op(CreateWebApiHandler), Op(InvokeAddLogger)]

  datatype Component = Mvc | WebApi

  /** The diagnostic events of the injector's event source. */
  datatype Event =
    | InjectionStarted
    | InjectionFailed(component: Component, error: Exc)
    | VersionNotSupported(version: Version, component: Component)
    | UnknownError(error: Exc)
    | AlreadyInjected(typeName: string, component: Component)
    | InjectionCompleted

  /** What happened to one kind when its pipeline returned normally. */
  datatype KindOutcome = Installed | SkippedAlreadyPresent | SkippedUnsupportedVersion | Failed(error: Exc)

  /** A kind's pipeline either returns an outcome or lets an exception escape. */
  datatype Returned = Normal(outcome: KindOutcome) | Threw(error: Exc)

  /**
   * One run of a kind's pipeline: how it returned, the new registry, the trace
   * of host actions so far (the trace given to the step, extended) and the
   * events the step logged.
   */
  datatype Run<S> = Run(returned: Returned, registry: S, performed: seq<Action>, events: seq<Event>)

  /** The process-global state the injector reads and changes. */
  datatype State = State(
    init: bool,                  // `Injector.init`
    filters: seq<MvcEntry>,      // `GlobalFilters.Filters`
    loggers: seq<Obj>,           // the `IExceptionLogger` services
    events: seq<Event>,          // the event source's output
    performed: seq<Action>,      // the reflective actions made against the host
    clients: nat)                // telemetry clients created so far

  /** The ungated run's new state and the exception it let escape, if any. */
  datatype Attempt = Attempt(state: State, escaped: Option<Exc>)

  /** The entry each installation appends. */
  function InstalledMvcEntry(client: TelemetryClient): (e: MvcEntry)
    ensures MarkedMvc(e) && !CastFailsMvc(e)
  {
    Filter(Some(MvcWrapper(MvcHandler(client))))
  }

  function InstalledLogger(client: TelemetryClient): (o: Obj)
    ensures Marked(TypeOf(o))
  {
    WebApiWrapper(WebApiHandler(client))
  }

  /** The `catch (ResolutionException)` around a kind's pipeline: only resolution failures stop there. */
  function Catch<S>(component: Component, e: Exc, registry: S, performed: seq<Action>, events: seq<Event>): Run<S>
  {
    if e.Resolution? then Run(Normal(Failed(e)), registry, performed, events + [InjectionFailed(component, e)])
    else Run(Threw(e), registry, performed, events)
  }

  /** `AddMvcFilter`: version gate, guard, synthesis, one append. */
  function MvcStep(env: Host, client: TelemetryClient, filters: seq<MvcEntry>, trace: seq<Action>): Run<seq<MvcEntry>>
  {
    var p := FirstFailure(env, [Lookup(HandleErrorType)]);
    var done := trace + p.performed;
    if p.failure.Some? then Catch(Mvc, p.failure.value, filters, done, [])
    else if env.mvcVersion.major < MinimumMvcVersion then
      Run(Normal(SkippedUnsupportedVersion), filters, done, [VersionNotSupported(env.mvcVersion, Mvc)])
    else MvcGuarded(env, client, filters, done)
  }

  /** `AddMvcFilter` from the global filter lookups on: the guard decides whether to synthesize. */
  function MvcGuarded(env: Host, client: TelemetryClient, filters: seq<MvcEntry>, trace: seq<Action>): Run<seq<MvcEntry>>
  {
    var p := FirstFailure(env, MvcGuardSetup);
    var done := trace + p.performed;
    if p.failure.Some? then Catch(Mvc, p.failure.value, filters, done, [])
    else match NeedToInjectMvc(filters)
      case GuardFailed(e) => Catch(Mvc, e, filters, done, [])
      case AlreadyPresent(t) => Run(Normal(SkippedAlreadyPresent), filters, done, [AlreadyInjected(t, Mvc)])
      case NeedsInjection => MvcInstall(env, client, filters, done)
  }

  /** `AddMvcFilter` after the guard said "inject": synthesize the filter and append one instance. */
  function MvcInstall(env: Host, client: TelemetryClient, filters: seq<MvcEntry>, trace: seq<Action>): Run<seq<MvcEntry>>
  {
    var p := FirstFailure(env, MvcSynthesis);
    var done := trace + p.performed;
    if p.failure.Some? then Catch(Mvc, p.failure.value, filters, done, [])
    else Run(Normal(Installed), filters + [InstalledMvcEntry(client)], done, [])
  }

  /** `AddWebApiExceptionLogger`: version gate, guard, synthesis, one append. */
  function WebApiStep(env: Host, client: TelemetryClient, loggers: seq<Obj>, trace: seq<Action>): Run<seq<Obj>>
  {
    var p := FirstFailure(env, [Lookup(ExceptionLoggerType)]);
    var done := trace + p.performed;
    if p.failure.Some? then Catch(WebApi, p.failure.value, loggers, done, [])
    else if env.webApiVersion.major < MinimumWebApiVersion then
      Run(Normal(SkippedUnsupportedVersion), loggers, done, [VersionNotSupported(env.webApiVersion, WebApi)])
    else WebApiGuarded(env, client, loggers, done)
  }

  /** `AddWebApiExceptionLogger` from the context and services lookups on. */
  function WebApiGuarded(env: Host, client: TelemetryClient, loggers: seq<Obj>, trace: seq<Action>): Run<seq<Obj>>
  {
    var p := FirstFailure(env, WebApiGuardSetup);
    var done := trace + p.performed;
    if p.failure.Some? then Catch(WebApi, p.failure.value, loggers, done, [])
    else match NeedToInjectWebApi(loggers)
      case GuardFailed(e) => Catch(WebApi, e, loggers, done, [])
      case AlreadyPresent(t) => Run(Normal(SkippedAlreadyPresent), loggers, done, [AlreadyInjected(t, WebApi)])
      case NeedsInjection => WebApiInstall(env, client, loggers, done)
  }

  /** `AddWebApiExceptionLogger` after the guard said "inject". */
  function WebApiInstall(env: Host, client: TelemetryClient, loggers: seq<Obj>, trace: seq<Action>): Run<seq<Obj>>
  {
    var p := FirstFailure(env, WebApiSynthesis);
    var done := trace + p.performed;
    if p.failure.Some? then Catch(WebApi, p.failure.value, loggers, done, [])
    else Run(Normal(Installed), loggers + [InstalledLogger(client)], done, [])
  }

  /** `InjectInternal` (also what a forced injection runs): telemetry setup, then MVC, then WebApi. */
  function InjectInternalRun(env: Host, s: State): Attempt
  {
    var s0 := s.(events := s.events + [InjectionStarted]);
    var p := FirstFailure(env, TelemetrySetup);
    if p.failure.Some? then Attempt(s0.(performed := s.performed + p.performed), p.failure)
    else
      var client := TelemetryClient(s.clients);
      var q := FirstFailure(env, ModuleSetup);
      var s1 := s0.(performed := s.performed + p.performed + q.performed, clients := s.clients + 1);
      if q.failure.Some? then Attempt(s1, q.failure)
      else
        var mvc := MvcStep(env, client, s1.filters, s1.performed);
        var s2 := s1.(filters := mvc.registry, performed := mvc.performed, events := s1.events + mvc.events);
        if mvc.returned.Threw? then Attempt(s2, Some(mvc.returned.error))
        else
          var api := WebApiStep(env, client, s2.loggers, s2.performed);
          var s3 := s2.(loggers := api.registry, performed := api.performed, events := s2.events + api.events);
          if api.returned.Threw? then Attempt(s3, Some(api.returned.error))
          else Attempt(s3.(events := s3.events + [InjectionCompleted]), None)
  }

  /** `Inject`: does nothing once `init` is set; sets it only after a run that returned normally. */
  function InjectSpec(env: Host, s: State): State
  {
    if s.init then s
    else
      var a := InjectInternalRun(env, s);
      if a.escaped.None? then a.state.(init := true)
      else a.state.(events := a.state.events + [UnknownError(a.escaped.value)])
  }
}
