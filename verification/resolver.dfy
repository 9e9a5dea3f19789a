/**
 * Capability resolution: the reflective lookups of the injector (`GetTypeOrFail`,
 * `GetMethodOrFail`, `GetConstructorOrFail`, `GetPropertyOrFail`,
 * `GetPropertyValueOrFail`, `GetStaticPropertyValueOrFail`) and the other
 * runtime operations that may throw, over an abstract host.
 */
module Resolver {
  import opened Options

  /** An assembly version; only `major` is compared by the injector. */
  datatype Version = Version(major: nat, minor: nat, build: nat, revision: nat)

  /** Every type, method, constructor, property (value) the injector looks up by name. */
  datatype Member =
    // telemetry SDK
    | TelemetryClientType | ExceptionTelemetryType | TrackExceptionMethod | ExceptionTelemetryCtor
    // MVC
    | HandleErrorType | GlobalFilterCollectionType | GlobalFiltersType | GlobalFiltersFilters
    | MvcFilterType | FilterInstanceProperty
    | MvcExceptionContextType | MvcExceptionGetter | ControllerContextType | HttpContextGetter
    | BaseOnExceptionMethod | AddFilterMethod | HttpContextBaseType | IsCustomErrorEnabledGetter
    | AttributeUsageMembers | HandleErrorDefaultCtor
    // WebApi
    | ExceptionLoggerType | ExceptionLoggerContextType | IExceptionLoggerType
    | GlobalConfigurationType | HttpConfigurationType | ServicesContainerType
    | GlobalConfigurationConfiguration | ConfigurationServices | GetServicesMethod
    | BaseLogMethod | AddServiceMethod | LoggerExceptionGetter | ExceptionLoggerDefaultCtor

  /**
   * Runtime operations that are not lookups and that can throw something other
   * than a resolution failure (object creation, dynamic type building, casts of
   * the registries, invoking the registries' `Add`).
   */
  datatype Operation =
    | CreateTelemetryClient | DefineDynamicModule
    | EnumerateGlobalFilters | DefineMvcHandlerType | CreateMvcHandlerType | CreateMvcHandler | InvokeAddFilter
    | EnumerateExceptionLoggers | DefineWebApiHandlerType | CreateWebApiHandlerType | CreateWebApiHandler
    | InvokeAddLogger

  /** One step the injector performs against the host. */
  datatype Action = Lookup(member: Member) | Op(operation: Operation)

  /**
   * The exceptions of the injector: `Resolution` is its own `ResolutionException`
   * (the only one the per-kind boundaries catch); the others escape to `Inject`.
   */
  datatype Exc =
    | Resolution(member: Member)
    | Unexpected(operation: Operation)
    | InvalidCast(typeName: string)   // an `IsAutoInjected` field whose value is not a bool

  /**
   * The host as the injector sees it: which lookups fail, which operations throw,
   * and the major versions of the MVC and WebApi assemblies.
   */
  datatype Host = Host(missing: set<Member>, faulty: set<Operation>, mvcVersion: Version, webApiVersion: Version)

  predicate Succeeds(env: Host, a: Action)
  {
    match a
    case Lookup(m) => m !in env.missing
    case Op(o) => o !in env.faulty
  }

  predicate AllSucceed(env: Host, acts: seq<Action>)
  {
    forall i :: 0 <= i < |acts| ==> Succeeds(env, acts[i])
  }

  /** The exception a failing action throws. */
  function FailureOf(a: Action): (e: Exc)
    ensures e.Resolution? <==> a.Lookup?
  {
    match a
    case Lookup(m) => Resolution(m)
    case Op(o) => Unexpected(o)
  }

  /** What running a sequence of actions did: the first exception, if any, and the actions actually performed. */
  datatype Probe = Probe(failure: Option<Exc>, performed: seq<Action>)

  /**
   * Runs `acts` in order and stops at the first one that throws; the
   * properties of the result are stated by `FirstFailureIsFirst`.
   */
  function FirstFailure(env: Host, acts: seq<Action>): Probe
  {
    if acts == [] then Probe(None, [])
    else if !Succeeds(env, acts[0]) then Probe(Some(FailureOf(acts[0])), [acts[0]])
    else
      var rest := FirstFailure(env, acts[1..]);
      Probe(rest.failure, [acts[0]] + rest.performed)
  }

  /**
   * Resolution is all-or-nothing: the probe fails exactly when some action
   * fails, it reports the first failing action, and nothing after that action
   * is attempted.
   */
  lemma {:induction false} FirstFailureIsFirst(env: Host, acts: seq<Action>)
    ensures var p := FirstFailure(env, acts);
      && |p.performed| <= |acts| && p.performed == acts[..|p.performed|]
      && (p.failure.None? <==> AllSucceed(env, acts))
      && (p.failure.None? ==> p.performed == acts)
      && (p.failure.Some? ==>
        && |p.performed| > 0
        && !Succeeds(env, p.performed[|p.performed| - 1])
        && p.failure.value == FailureOf(p.performed[|p.performed| - 1])
        && forall i :: 0 <= i < |p.performed| - 1 ==> Succeeds(env, p.performed[i]))
  {
    if acts != [] && Succeeds(env, acts[0]) {
      FirstFailureIsFirst(env, acts[1..]);
      var rest := FirstFailure(env, acts[1..]);
      assert forall i :: 1 <= i < |acts| ==> acts[i] == acts[1..][i - 1];
      if rest.failure.Some? {
        var p := FirstFailure(env, acts);
        assert forall i :: 1 <= i < |p.performed| ==> p.performed[i] == rest.performed[i - 1];
      }
    }
  }

  /** The probe fails exactly when some action fails. */
  lemma ProbeFailsIffSomeActionFails(env: Host, acts: seq<Action>)
    ensures FirstFailure(env, acts).failure.None? <==> AllSucceed(env, acts)
  {
    FirstFailureIsFirst(env, acts);
  }

  /** The probe performs a prefix of its actions, all of them when it succeeds. */
  lemma ProbePerformsPrefix(env: Host, acts: seq<Action>)
    ensures FirstFailure(env, acts).performed <= acts
    ensures FirstFailure(env, acts).failure.None? ==> FirstFailure(env, acts).performed == acts
  {
    FirstFailureIsFirst(env, acts);
  }

  /** On a host where nothing is missing or faulty, every probe succeeds. */
  lemma CompleteHostNeverFails(env: Host, acts: seq<Action>)
    requires env.missing == {} && env.faulty == {}
    ensures FirstFailure(env, acts) == Probe(None, acts)
  {
    FirstFailureIsFirst(env, acts);
  }
}
