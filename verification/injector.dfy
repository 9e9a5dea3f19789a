/**
 * The injector as the process sees it: the static `init` flag, the two host
 * registries it appends to, the event source it writes to and the reflective
 * actions it makes, updated in place by `Inject`, `InjectInternal` and the two
 * per-kind pipelines.
 */
module Injection {
  import opened Options
  import opened Resolver
  import opened Handlers
  import opened Guard
  import opened Pipeline

  class Injector {
    const env: Host
    var init: bool
    var globalFilters: seq<MvcEntry>
    var exceptionLoggers: seq<Obj>
    var events: seq<Event>
    var performed: seq<Action>
    var clients: nat

    function Snapshot(): State
      reads this
    {
      State(init, globalFilters, exceptionLoggers, events, performed, clients)
    }

    /** Process start: nothing injected yet, registries as the host set them up. */
    constructor (env: Host, globalFilters: seq<MvcEntry>, exceptionLoggers: seq<Obj>)
      ensures this.env == env
      ensures Snapshot() == State(false, globalFilters, exceptionLoggers, [], [], 0)
    {
      this.env := env;
      init := false;
      this.globalFilters := globalFilters;
      this.exceptionLoggers := exceptionLoggers;
      events := [];
      performed := [];
      clients := 0;
    }

    /** Performs `acts` against the host in order, stopping at the first that throws. */
    method Probe(acts: seq<Action>) returns (failure: Option<Exc>)
      modifies this`performed
      ensures var p := FirstFailure(env, acts);
        failure == p.failure && performed == old(performed) + p.performed
    {
      var p := FirstFailure(env, acts);
      performed := performed + p.performed;
      failure := p.failure;
    }

    /** The per-kind `catch (ResolutionException)`: log and return normally, or let the exception escape. */
    method Catch(component: Component, e: Exc) returns (r: Returned)
      modifies this`events
      ensures e.Resolution? ==> r == Normal(Failed(e)) && events == old(events) + [InjectionFailed(component, e)]
      ensures !e.Resolution? ==> r == Threw(e) && events == old(events)
    {
      if e.Resolution? {
        events := events + [InjectionFailed(component, e)];
        r := Normal(Failed(e));
      } else {
        r := Threw(e);
      }
    }

    method AddMvcFilter(client: TelemetryClient) returns (r: Returned)
      modifies this`globalFilters, this`events, this`performed
      ensures var run := MvcStep(env, client, old(globalFilters), old(performed));
        && r == run.returned
        && globalFilters == run.registry
        && performed == run.performed
        && events == old(events) + run.events
    {
      var failure := Probe([Lookup(HandleErrorType)]);
      if failure.Some? {
        r := Catch(Mvc, failure.value);
        return;
      }
      if env.mvcVersion.major < MinimumMvcVersion {
        events := events + [VersionNotSupported(env.mvcVersion, Mvc)];
        r := Normal(SkippedUnsupportedVersion);
        return;
      }
      failure := Probe(MvcGuardSetup);
      if failure.Some? {
        r := Catch(Mvc, failure.value);
        return;
      }
      var guard := NeedToInjectMvc(globalFilters);
      if guard.GuardFailed? {
        r := Catch(Mvc, guard.error);
        return;
      }
      if guard.AlreadyPresent? {
        events := events + [AlreadyInjected(guard.typeName, Mvc)];
        r := Normal(SkippedAlreadyPresent);
        return;
      }
      failure := Probe(MvcSynthesis);
      if failure.Some? {
        r := Catch(Mvc, failure.value);
        return;
      }
      var handler := MvcHandler(client);
      globalFilters := globalFilters + [Filter(Some(MvcWrapper(handler)))];
      r := Normal(Installed);
    }

    method AddWebApiExceptionLogger(client: TelemetryClient) returns (r: Returned)
      modifies this`exceptionLoggers, this`events, this`performed
      ensures var run := WebApiStep(env, client, old(exceptionLoggers), old(performed));
        && r == run.returned
        && exceptionLoggers == run.registry
        && performed == run.performed
        && events == old(events) + run.events
    {
      var failure := Probe([Lookup(ExceptionLoggerType)]);
      if failure.Some? {
        r := Catch(WebApi, failure.value);
        return;
      }
      if env.webApiVersion.major < MinimumWebApiVersion {
        events := events + [VersionNotSupported(env.webApiVersion, WebApi)];
        r := Normal(SkippedUnsupportedVersion);
        return;
      }
      failure := Probe(WebApiGuardSetup);
      if failure.Some? {
        r := Catch(WebApi, failure.value);
        return;
      }
      var guard := NeedToInjectWebApi(exceptionLoggers);
      if guard.GuardFailed? {
        r := Catch(WebApi, guard.error);
        return;
      }
      if guard.AlreadyPresent? {
        events := events + [AlreadyInjected(guard.typeName, WebApi)];
        r := Normal(SkippedAlreadyPresent);
        return;
      }
      failure := Probe(WebApiSynthesis);
      if failure.Some? {
        r := Catch(WebApi, failure.value);
        return;
      }
      var logger := WebApiHandler(client);
      exceptionLoggers := exceptionLoggers + [WebApiWrapper(logger)];
      r := Normal(Installed);
    }

    /** The ungated run; an exception that escapes it is returned in `escaped`. */
    method InjectInternal() returns (escaped: Option<Exc>)
      modifies this`globalFilters, this`exceptionLoggers, this`events, this`performed, this`clients
      ensures Attempt(Snapshot(), escaped) == InjectInternalRun(env, old(Snapshot()))
    {
      events := events + [InjectionStarted];
      escaped := Probe(TelemetrySetup);
      if escaped.Some? {
        return;
      }
      var client := TelemetryClient(clients);
      clients := clients + 1;
      escaped := Probe(ModuleSetup);
      if escaped.Some? {
        return;
      }
      var mvc := AddMvcFilter(client);
      if mvc.Threw? {
        escaped := Some(mvc.error);
        return;
      }
      var webApi := AddWebApiExceptionLogger(client);
      if webApi.Threw? {
        escaped := Some(webApi.error);
        return;
      }
      events := events + [InjectionCompleted];
    }

    /** The exactly-once entry point; nothing escapes it. */
    method Inject()
      modifies this
      ensures Snapshot() == InjectSpec(env, old(Snapshot()))
      ensures old(init) ==> Snapshot() == old(Snapshot())
      ensures init == (old(init) || InjectInternalRun(env, old(Snapshot())).escaped.None?)
    {
      if !init {
        var escaped := InjectInternal();
        if escaped.None? {
          init := true;
        } else {
          events := events + [UnknownError(escaped.value)];
        }
      }
    }
  }
}
