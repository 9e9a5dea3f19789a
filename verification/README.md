# Exception-tracking injection, modelled in Dafny

This project models the injector of the Application Insights exception-tracking
"lightup" package. At application start-up, `Injector.Inject` looks up the
Application Insights SDK by reflection and creates one `TelemetryClient`. It
then synthesizes two exception handlers and registers each with the ASP.NET
framework it belongs to:

- an MVC filter, a subclass of `HandleErrorAttribute` that is appended to
  `GlobalFilters.Filters`;
- a WebApi exception logger, a subclass of `ExceptionLogger` that is added to
  the `IExceptionLogger` services.

Each synthesized type carries a public static marker field
`IsAutoInjected == true`. Before installing, each kind looks for a registered
handler bearing that marker; if it finds one, it installs nothing
(cooperative idempotency). The model covers these parts:

- **Host** (`resolver.dfy`). The reflection environment is a value. It gives
  the set of members that do not resolve, the operations that throw, and the
  two framework versions. Every `Get*OrFail` lookup is an `Action`. A run of
  actions stops at the first failure (`FirstFailure`). A missing member raises
  a resolution failure. A throwing operation raises an unexpected exception.
- **Handlers** (`handlers.dfy`). The two overridden methods that the emitted IL
  implements, `OnException` and `Log`, as functions from the context to the
  calls they make.
- **Guards** (`guard.dfy`). `NeedToInjectMvc` and `NeedToInjectWebApi` scan the
  registry for the marker. This includes the `(bool)` cast that throws when
  the marker field is not a `bool`.
- **Pipeline** (`pipeline.dfy`). `AddMvcFilter`, `AddWebApiExceptionLogger`,
  `InjectInternal` and `Inject` as specification functions over a `State`.
  The state holds:
  - the `init` flag;
  - both registries;
  - the event log;
  - the trace of host actions;
  - a counter for the telemetry clients created.
- **Injector class** (`injector.dfy`). The static class becomes a Dafny class
  whose fields the methods update in place. Each method is proved equal to
  its pipeline function.
- **Properties** (`properties.dfy`, `runs.dfy`, `scenarios.dfy`):
  - when each kind installs;
  - the version gate;
  - idempotency through the marker;
  - which failures a kind absorbs and which reach `Inject`;
  - at most one installation per registry over any number of runs;
  - the exactly-once gate of `Inject`;
  - the scenarios the test suite exercises.

Where the code and its written description differ, the model follows the code:

- **Only resolution failures are caught per kind.** Each kind's `try` catches
  `ResolutionException` only. An exception from `CreateType`,
  `Activator.CreateInstance`, `Invoke` or the marker cast therefore leaves that
  kind and the whole of `InjectInternal`. The WebApi kind is skipped and
  `InjectionCompleted` is not logged. `Inject` logs `UnknownError` and leaves
  `init` unset.
- **The null checks of the guards.** The check at `Injector.cs:252-255` follows
  a cast that throws on a non-enumerable value, so it can never fire. The
  message built at `Injector.cs:413-416` calls `GetType()` on the null it just
  found. That call is bound dynamically, so the path ends in a
  `RuntimeBinderException` rather than a resolution failure. Both situations
  are modelled as the enumeration operation throwing an unexpected exception
  (`EnumerateGlobalFilters`, `EnumerateExceptionLoggers`).
- **The base method is not always called.** The emitted `OnException` and
  `Log` have no `try`/`finally`. A `TrackException` (or an exception getter)
  that throws would skip the base call and propagate to the framework. The
  model's handlers cannot throw, so in the model the base call always
  happens; see "Left out".
- **`ForceInject` is not part of this model.** The WebApi test calls it, but
  it is not among the source files. It is modelled as the ungated
  `InjectInternal` (`Runs.ForceInjectN`).

## Model

| member | source | states |
|---|---|---|
| Resolver.FailureOf | src/Microsoft.ApplicationInsights.ExceptionTracking/Injector.cs:480-549 | a failing lookup raises a resolution failure, and a failing operation raises an exception that is not one |
| Resolver.FirstFailureIsFirst | src/Microsoft.ApplicationInsights.ExceptionTracking/Injector.cs:480-549 | fail-fast resolution: the actions performed are a prefix of those requested; no failure iff every action succeeds, and then all were performed; on failure the last performed action is the first failing one, with its exception, and every earlier one succeeded |
| Resolver.ProbeFailsIffSomeActionFails | src/Microsoft.ApplicationInsights.ExceptionTracking/Injector.cs:480-549 | a sequence of lookups fails exactly when one of its actions fails |
| Resolver.ProbePerformsPrefix | src/Microsoft.ApplicationInsights.ExceptionTracking/Injector.cs:480-549 | the host is never asked for more than the requested actions, in order |
| Resolver.CompleteHostNeverFails | src/Microsoft.ApplicationInsights.ExceptionTracking/Injector.cs:480-549 | on a host where everything resolves, every lookup sequence succeeds and performs everything |
| Handlers.MvcHandler.OnException | src/Microsoft.ApplicationInsights.ExceptionTracking/Injector.cs:150-239 | the emitted `OnException` always ends with the base call on the unchanged context; it tracks exactly when the context, its `HttpContext` and its exception are non-null and custom errors are enabled; it then tracks exactly one `ExceptionTelemetry` of that exception, with the stored client, before the base call |
| Handlers.WebApiHandler.Log | src/Microsoft.ApplicationInsights.ExceptionTracking/Injector.cs:345-395 | the emitted `Log` always ends with the base call; it tracks exactly when the context and its exception are non-null, and then tracks one record of that exception with the stored client |
| Guard.TypeOf | src/Microsoft.ApplicationInsights.ExceptionTracking/Injector.cs:452-463 | every synthesized handler type carries the public static marker `IsAutoInjected` with the constant `true`; the MVC wrapper's type is named `MvcHandlerName` and the WebApi wrapper's `WebApiHandlerName` |
| Guard.NeedToInjectMvc | src/Microsoft.ApplicationInsights.ExceptionTracking/Injector.cs:249-283 | the MVC guard asks for injection iff no registered `Filter` has a non-null instance whose type has a true marker and no scanned marker fails the cast; a reported type name is that of a marked instance; a cast failure is reported with the offending type; without cast failures, "already present" iff a marked filter exists |
| Guard.NeedToInjectWebApi | src/Microsoft.ApplicationInsights.ExceptionTracking/Injector.cs:407-432 | the same, for registered exception loggers, whose types are inspected directly |
| Guard.NeedToInjectMvcFirstDecides | src/Microsoft.ApplicationInsights.ExceptionTracking/Injector.cs:260-281 | the scan stops at the first decisive filter, whatever follows it: a `true` marker gives "already present" with that instance's type name, and a non-`bool` marker gives the failed cast with that type's name |
| Guard.NeedToInjectWebApiFirstDecides | src/Microsoft.ApplicationInsights.ExceptionTracking/Injector.cs:418-430 | the same for the first decisive exception logger |
| Pipeline.InstalledMvcEntry | src/Microsoft.ApplicationInsights.ExceptionTracking/Injector.cs:116-142 | the filter added to the global filters is one the MVC guard recognises as marked, and whose cast does not fail |
| Pipeline.InstalledLogger | src/Microsoft.ApplicationInsights.ExceptionTracking/Injector.cs:323-337 | the logger added to the services is one the WebApi guard recognises as marked |
| Injection.Injector.constructor | src/Microsoft.ApplicationInsights.ExceptionTracking/Injector.cs:24-25 | the process starts with `init` unset, no events, no host actions and no telemetry client, over the given registries |
| Injection.Injector.Probe | src/Microsoft.ApplicationInsights.ExceptionTracking/Injector.cs:480-549 | a run of lookups appends exactly the fail-fast prefix to the trace and returns the first failure |
| Injection.Injector.Catch | src/Microsoft.ApplicationInsights.ExceptionTracking/Injector.cs:144-147 | a resolution failure is logged once as `InjectionFailed` for its kind and absorbed; any other exception is rethrown with nothing logged |
| Injection.Injector.AddMvcFilter | src/Microsoft.ApplicationInsights.ExceptionTracking/Injector.cs:80-148 | the imperative MVC step returns, logs, performs and leaves the global filters exactly as `Pipeline.MvcStep` says |
| Injection.Injector.AddWebApiExceptionLogger | src/Microsoft.ApplicationInsights.ExceptionTracking/Injector.cs:287-343 | the imperative WebApi step matches `Pipeline.WebApiStep` in its result, log, trace and loggers |
| Injection.Injector.InjectInternal | src/Microsoft.ApplicationInsights.ExceptionTracking/Injector.cs:49-77 | the ungated run takes the state to exactly what `Pipeline.InjectInternalRun` gives, and returns the exception that escaped, if any |
| Injection.Injector.Inject | src/Microsoft.ApplicationInsights.ExceptionTracking/Injector.cs:27-47 | `Inject` matches `Pipeline.InjectSpec`; once `init` is set nothing changes; afterwards `init` holds iff it held or the run returned normally |
| Properties.MvcStepOutcome | src/Microsoft.ApplicationInsights.ExceptionTracking/Injector.cs:86-147 | the MVC filter is installed iff the MVC 5+ check passes, every lookup and operation succeeds and the guard finds no marker; the registry then gains exactly one marked wrapper and is otherwise unchanged; an absorbed failure is a resolution failure logged once, and an escaping one is not a resolution failure |
| Properties.MvcStepCauses | src/Microsoft.ApplicationInsights.ExceptionTracking/Injector.cs:86-147 | cause to outcome, stage by stage: a missing `HandleErrorAttribute`, the first failing guard-setup or synthesis action, or a failed marker cast is caught and logged once as `InjectionFailed` when it is a resolution failure, and otherwise escapes with nothing logged; the step is skipped for the version iff the type resolves below MVC 5, and for a marker iff everything up to the guard resolves and the guard finds one, logging `AlreadyInjected` with that type's name |
| Properties.MvcVersionGate | src/Microsoft.ApplicationInsights.ExceptionTracking/Injector.cs:88-93 | below MVC 5 the step logs `VersionNotSupported` with the version, touches no registry and looks up nothing beyond `HandleErrorAttribute` |
| Properties.MvcMarkedRegistryLeftAlone | src/Microsoft.ApplicationInsights.ExceptionTracking/Injector.cs:95-100 | with a marked filter registered, the MVC step installs nothing, leaves the filters as they are and performs no synthesis lookups |
| Properties.WebApiStepOutcome | src/Microsoft.ApplicationInsights.ExceptionTracking/Injector.cs:294-342 | the WebApi logger is installed iff the WebApi 5+ check passes, everything resolves and no marked logger exists; then exactly one marked wrapper is added; an absorbed failure is a resolution failure logged once, and an escaping one is not |
| Properties.WebApiStepCauses | src/Microsoft.ApplicationInsights.ExceptionTracking/Injector.cs:294-342 | the WebApi counterpart of `MvcStepCauses`: each failure is absorbed and logged iff it is a resolution failure and escapes otherwise; the version and marker skips happen exactly under their conditions, with their events |
| Properties.WebApiVersionGate | src/Microsoft.ApplicationInsights.ExceptionTracking/Injector.cs:298-303 | below WebApi 5 the step logs `VersionNotSupported` and touches nothing else |
| Properties.WebApiMarkedRegistryLeftAlone | src/Microsoft.ApplicationInsights.ExceptionTracking/Injector.cs:305-311 | with a marked logger registered, the WebApi step installs nothing and performs no synthesis lookups |
| Runs.InjectInternalRegistries | src/Microsoft.ApplicationInsights.ExceptionTracking/Injector.cs:49-77 | one ungated run leaves each registry unchanged, or appends one wrapper holding the client that run created, and only when no marked handler was present; it never sets `init` |
| Runs.KindFailureIsolation | src/Microsoft.ApplicationInsights.ExceptionTracking/Injector.cs:64-74 | after the shared setup, a normal MVC outcome (installed, skipped or a caught resolution failure) lets the WebApi step run unchanged; an exception escaping the MVC step skips WebApi and reaches `Inject` |
| Runs.TelemetryFailureEscapes | src/Microsoft.ApplicationInsights.ExceptionTracking/Injector.cs:35-58 | a failing SDK lookup escapes before any registry is read; `Inject` logs it as `UnknownError` and leaves `init` unset, so a later call retries |
| Runs.ForceInjectInstallsAtMostOnce | src/Microsoft.ApplicationInsights.ExceptionTracking/Injector.cs:452-462 | any number of ungated runs adds at most one marked wrapper to each registry, and none to a registry that already holds a marked handler |
| Runs.InjectGate | src/Microsoft.ApplicationInsights.ExceptionTracking/Injector.cs:27-47 | with `init` set, `Inject` is the identity; otherwise it applies the run's registries and log, sets `init` iff nothing escaped, and logs the escaped exception as `UnknownError` |
| Runs.InjectRunsOnce | src/Microsoft.ApplicationInsights.ExceptionTracking/Injector.cs:29-38 | after a successful `Inject`, any number of further calls leave the whole state unchanged |
| Runs.InjectInstallsAtMostOnce | src/Microsoft.ApplicationInsights.ExceptionTracking/Injector.cs:27-47 | any number of `Inject` calls, including retries after failures, adds at most one marked wrapper to each registry, and none where a marked handler is already registered |
| Scenarios.FreshInstallThenTrack | test/Microsoft.ApplicationInsights.ExceptionTracking.Tests/MvcInjectionTests.cs:31-51 | on a complete ASP.NET 5 host with empty registries, one ungated run (as the test's `InjectInternal`) raises nothing and installs one MVC filter and one WebApi logger; given a thrown exception, each tracks exactly one record of it and then calls its base method; the gated `Inject` from a fresh process gives the same registries and sets `init` |
| Scenarios.PreInstalledFilterKept | test/Microsoft.ApplicationInsights.ExceptionTracking.Tests/MvcInjectionTests.cs:53-64 | with a marked filter already registered, any number of ungated runs (as the test's `InjectInternal`), and any number of `Inject` calls, leave the global filters as exactly that one filter |
| Scenarios.PreInstalledLoggerKept | test/Microsoft.ApplicationInsights.ExceptionTracking.Tests/WebApiInjectionTests.cs:58-69 | with a marked exception logger already registered, any number of ungated runs (as the test's `ForceInject`), and any number of `Inject` calls, leave the loggers as exactly that one logger |
| Scenarios.UnsupportedVersionsInstallNothing | test/Microsoft.ApplicationInsights.ExceptionTracking.AspNet4.Tests/NotSupportedAspNetVersionTests.cs:16-21 | when the SDK setup succeeds and both `HandleErrorAttribute` and `ExceptionLogger` resolve with a major version below 5, `Inject` completes, leaves both registries as they were and logs exactly: started, one unsupported version per kind, completed (the test itself checks only the MVC filters) |
| Scenarios.AbsentHostTypesInstallNothing | src/Microsoft.ApplicationInsights.ExceptionTracking/Injector.cs:86-147 | when neither framework is present, `Inject` completes, installs nothing and logs one `InjectionFailed` per kind |

## Left out

- Reflection.Emit is out of scope, and so are the IL it emits, `CreateType`
  and the `AttributeUsage` attribute builder. Each synthesized type is a
  value (`MvcWrapper`, `WebApiWrapper`) carrying its client, its marker and
  its name. Resolving the attribute's members is one lookup,
  `AttributeUsageMembers`.
- The `volatile` flag and the `lock` in `Inject` are not modelled, and neither
  is concurrency: calls are sequential. A race between two lightup copies
  that both find no marker and both install is therefore not represented.
- `InjectorEventSource` is reduced to the event kind, the kind name and the
  exception or version. Message texts, `ToString()` output and the
  application name are not modelled (InjectorEventSource.cs is context only).
- The telemetry client is an identifier. Sending telemetry and the
  behaviour of the base `OnException`/`Log` are not modelled. A getter or
  `TrackException` that throws inside a handler is not modelled either.
- Host faults are static: an action that fails on one run fails on every run.
  A host that changes between retries is not represented.
- Objects are values, so reference identity and aliasing of registry entries
  are not modelled.
- Only a marker that is a public static field is considered. Its value is
  either `true`, `false` or not a `bool`; the last case models the failing
  cast.
- The test application (`Global.asax.cs`) and the test helpers
  (`AspNetHelper.cs`) are not part of this model.
