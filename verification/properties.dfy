/**
 * What each per-kind step promises, proved about the pipeline functions: the
 * registry update and its exact condition, the version gate, cooperative
 * idempotency through the marker, and which failures stop at the kind.
 */
module Properties {
  import opened Options
  import opened Resolver
  import opened Handlers
  import opened Guard
  import opened Pipeline

  lemma PrefixOfConcat<T>(a: seq<T>, b: seq<T>, c: seq<T>)
    requires b <= c
    ensures a <= a + b <= a + c
  {
    assert (a + b)[..|a|] == a;
    assert (a + c)[..|a + b|] == a + b;
  }

  // ---------------------------------------------------------------- MVC kind

  /**
   * `AddMvcFilter` installs exactly when every lookup and operation succeeds,
   * the version is supported and the guard finds no marked filter; then the
   * registry is the old one plus exactly one marked wrapper, and otherwise it
   * is unchanged. Only resolution failures stop at the kind's boundary, and
   * each is logged once.
   */
  lemma MvcStepOutcome(env: Host, client: TelemetryClient, filters: seq<MvcEntry>, trace: seq<Action>)
    ensures var r := MvcStep(env, client, filters, trace);
      && (r.returned == Normal(Installed) <==>
           && AllSucceed(env, [Lookup(HandleErrorType)])
           && env.mvcVersion.major >= MinimumMvcVersion
           && AllSucceed(env, MvcGuardSetup)
           && NeedToInjectMvc(filters).NeedsInjection?
           && AllSucceed(env, MvcSynthesis))
      && (r.returned == Normal(Installed) ==>
           r.registry == filters + [InstalledMvcEntry(client)] && !HasMarkedMvc(filters) && r.events == [])
      && (r.returned != Normal(Installed) ==> r.registry == filters)
      && (r.returned.Threw? ==> !r.returned.error.Resolution?)
      && (r.returned.Normal? && r.returned.outcome.Failed? ==>
           r.returned.outcome.error.Resolution? && r.events == [InjectionFailed(Mvc, r.returned.outcome.error)])
  {
    ProbeFailsIffSomeActionFails(env, [Lookup(HandleErrorType)]);
    ProbeFailsIffSomeActionFails(env, MvcGuardSetup);
    ProbeFailsIffSomeActionFails(env, MvcSynthesis);
  }

  /**
   * How a step reports the exception `e` it raised: a resolution failure is
   * caught by the kind's handler and logged once as `InjectionFailed`, any
   * other exception leaves the step with nothing logged.
   */
  predicate Raised<S>(r: Run<S>, component: Component, e: Exc)
  {
    if e.Resolution? then r.returned == Normal(Failed(e)) && r.events == [InjectionFailed(component, e)]
    else r.returned == Threw(e) && r.events == []
  }

  /**
   * Cause to outcome for the MVC step, stage by stage: which failure is raised
   * and how it is reported, when the version gate or the guard ends the step,
   * and what it logs then. With `MvcStepOutcome` this fixes the step's result
   * and log for every host and registry.
   */
  lemma MvcStepCauses(env: Host, client: TelemetryClient, filters: seq<MvcEntry>, trace: seq<Action>)
    ensures var r := MvcStep(env, client, filters, trace);
      var resolved := AllSucceed(env, [Lookup(HandleErrorType)]);
      var supported := env.mvcVersion.major >= MinimumMvcVersion;
      var located := AllSucceed(env, MvcGuardSetup);
      var g := NeedToInjectMvc(filters);
      && (!resolved ==> Raised(r, Mvc, Resolution(HandleErrorType)))
      && (r.returned == Normal(SkippedUnsupportedVersion) <==> resolved && !supported)
      && (resolved && !supported ==> r.events == [VersionNotSupported(env.mvcVersion, Mvc)])
      && (resolved && supported && !located ==> FirstFailure(env, MvcGuardSetup).failure.Some? && Raised(r, Mvc, FirstFailure(env, MvcGuardSetup).failure.value))
      && (resolved && supported && located && g.GuardFailed? ==> Raised(r, Mvc, g.error))
      && (r.returned == Normal(SkippedAlreadyPresent) <==> resolved && supported && located && g.AlreadyPresent?)
      && (resolved && supported && located && g.AlreadyPresent? ==> r.events == [AlreadyInjected(g.typeName, Mvc)])
      && (resolved && supported && located && g.NeedsInjection? && !AllSucceed(env, MvcSynthesis) ==>
           FirstFailure(env, MvcSynthesis).failure.Some? && Raised(r, Mvc, FirstFailure(env, MvcSynthesis).failure.value))
  {
    ProbeFailsIffSomeActionFails(env, [Lookup(HandleErrorType)]);
    ProbeFailsIffSomeActionFails(env, MvcGuardSetup);
    ProbeFailsIffSomeActionFails(env, MvcSynthesis);
  }

  /**
   * Below MVC 5 the step logs the unsupported version and returns: the
   * registry is neither enumerated nor changed, and nothing but the
   * `HandleErrorAttribute` type is looked up.
   */
  lemma MvcVersionGate(env: Host, client: TelemetryClient, filters: seq<MvcEntry>, trace: seq<Action>)
    requires HandleErrorType !in env.missing && env.mvcVersion.major < MinimumMvcVersion
    ensures MvcStep(env, client, filters, trace) ==
      Run(Normal(SkippedUnsupportedVersion), filters, trace + [Lookup(HandleErrorType)], [VersionNotSupported(env.mvcVersion, Mvc)])
  {
    ProbePerformsPrefix(env, [Lookup(HandleErrorType)]);
  }

  /**
   * Cooperative idempotency: when a filter whose instance bears the marker is
   * registered, the step changes nothing, installs nothing and resolves none of
   * the members needed to synthesize a wrapper.
   */
  lemma MvcMarkedRegistryLeftAlone(env: Host, client: TelemetryClient, filters: seq<MvcEntry>, trace: seq<Action>)
    requires HasMarkedMvc(filters)
    ensures var r := MvcStep(env, client, filters, trace);
      && r.registry == filters
      && r.returned != Normal(Installed)
      && trace <= r.performed <= trace + ([Lookup(HandleErrorType)] + MvcGuardSetup)
  {
    var r := MvcStep(env, client, filters, trace);
    var p := FirstFailure(env, [Lookup(HandleErrorType)]);
    var all := [Lookup(HandleErrorType)] + MvcGuardSetup;
    ProbePerformsPrefix(env, [Lookup(HandleErrorType)]);
    assert trace + all == (trace + [Lookup(HandleErrorType)]) + MvcGuardSetup;
    if p.failure.Some? || env.mvcVersion.major < MinimumMvcVersion {
      assert r.performed == trace + p.performed;
      PrefixOfConcat(trace, p.performed, all);
    } else {
      var q := FirstFailure(env, MvcGuardSetup);
      ProbePerformsPrefix(env, MvcGuardSetup);
      assert !NeedToInjectMvc(filters).NeedsInjection?;
      assert r.performed == (trace + [Lookup(HandleErrorType)]) + q.performed;
      PrefixOfConcat(trace + [Lookup(HandleErrorType)], q.performed, MvcGuardSetup);
      PrefixOfConcat(trace, [Lookup(HandleErrorType)], all);
    }
  }


  // ------------------------------------------------------------- WebApi kind

  /** The WebApi counterpart of `MvcStepOutcome`. */
  lemma WebApiStepOutcome(env: Host, client: TelemetryClient, loggers: seq<Obj>, trace: seq<Action>)
    ensures var r := WebApiStep(env, client, loggers, trace);
      && (r.returned == Normal(Installed) <==>
           && AllSucceed(env, [Lookup(ExceptionLoggerType)])
           && env.webApiVersion.major >= MinimumWebApiVersion
           && AllSucceed(env, WebApiGuardSetup)
           && NeedToInjectWebApi(loggers).NeedsInjection?
           && AllSucceed(env, WebApiSynthesis))
      && (r.returned == Normal(Installed) ==>
           r.registry == loggers + [InstalledLogger(client)] && !HasMarkedLogger(loggers) && r.events == [])
      && (r.returned != Normal(Installed) ==> r.registry == loggers)
      && (r.returned.Threw? ==> !r.returned.error.Resolution?)
      && (r.returned.Normal? && r.returned.outcome.Failed? ==>
           r.returned.outcome.error.Resolution? && r.events == [InjectionFailed(WebApi, r.returned.outcome.error)])
  {
    ProbeFailsIffSomeActionFails(env, [Lookup(ExceptionLoggerType)]);
    ProbeFailsIffSomeActionFails(env, WebApiGuardSetup);
    ProbeFailsIffSomeActionFails(env, WebApiSynthesis);
  }

  /** Cause to outcome for the WebApi step; the counterpart of `MvcStepCauses`. */
  lemma WebApiStepCauses(env: Host, client: TelemetryClient, loggers: seq<Obj>, trace: seq<Action>)
    ensures var r := WebApiStep(env, client, loggers, trace);
      var resolved := AllSucceed(env, [Lookup(ExceptionLoggerType)]);
      var supported := env.webApiVersion.major >= MinimumWebApiVersion;
      var located := AllSucceed(env, WebApiGuardSetup);
      var g := NeedToInjectWebApi(loggers);
      && (!resolved ==> Raised(r, WebApi, Resolution(ExceptionLoggerType)))
      && (r.returned == Normal(SkippedUnsupportedVersion) <==> resolved && !supported)
      && (resolved && !supported ==> r.events == [VersionNotSupported(env.webApiVersion, WebApi)])
      && (resolved && supported && !located ==> FirstFailure(env, WebApiGuardSetup).failure.Some? && Raised(r, WebApi, FirstFailure(env, WebApiGuardSetup).failure.value))
      && (resolved && supported && located && g.GuardFailed? ==> Raised(r, WebApi, g.error))
      && (r.returned == Normal(SkippedAlreadyPresent) <==> resolved && supported && located && g.AlreadyPresent?)
      && (resolved && supported && located && g.AlreadyPresent? ==> r.events == [AlreadyInjected(g.typeName, WebApi)])
      && (resolved && supported && located && g.NeedsInjection? && !AllSucceed(env, WebApiSynthesis) ==>
           FirstFailure(env, WebApiSynthesis).failure.Some? && Raised(r, WebApi, FirstFailure(env, WebApiSynthesis).failure.value))
  {
    ProbeFailsIffSomeActionFails(env, [Lookup(ExceptionLoggerType)]);
    ProbeFailsIffSomeActionFails(env, WebApiGuardSetup);
    ProbeFailsIffSomeActionFails(env, WebApiSynthesis);
  }

  /** Below WebApi 5 the step logs the unsupported version and touches nothing else. */
  lemma WebApiVersionGate(env: Host, client: TelemetryClient, loggers: seq<Obj>, trace: seq<Action>)
    requires ExceptionLoggerType !in env.missing && env.webApiVersion.major < MinimumWebApiVersion
    ensures WebApiStep(env, client, loggers, trace) ==
      Run(Normal(SkippedUnsupportedVersion), loggers, trace + [Lookup(ExceptionLoggerType)], [VersionNotSupported(env.webApiVersion, WebApi)])
  {
    ProbePerformsPrefix(env, [Lookup(ExceptionLoggerType)]);
  }

  /** A registered logger whose type bears the marker keeps the WebApi step from installing anything. */
  lemma WebApiMarkedRegistryLeftAlone(env: Host, client: TelemetryClient, loggers: seq<Obj>, trace: seq<Action>)
    requires HasMarkedLogger(loggers)
    ensures var r := WebApiStep(env, client, loggers, trace);
      && r.registry == loggers
      && r.returned != Normal(Installed)
      && trace <= r.performed <= trace + ([Lookup(ExceptionLoggerType)] + WebApiGuardSetup)
  {
    var r := WebApiStep(env, client, loggers, trace);
    var p := FirstFailure(env, [Lookup(ExceptionLoggerType)]);
    var all := [Lookup(ExceptionLoggerType)] + WebApiGuardSetup;
    ProbePerformsPrefix(env, [Lookup(ExceptionLoggerType)]);
    assert trace + all == (trace + [Lookup(ExceptionLoggerType)]) + WebApiGuardSetup;
    if p.failure.Some? || env.webApiVersion.major < MinimumWebApiVersion {
      assert r.performed == trace + p.performed;
      PrefixOfConcat(trace, p.performed, all);
    } else {
      var q := FirstFailure(env, WebApiGuardSetup);
      ProbePerformsPrefix(env, WebApiGuardSetup);
      assert !NeedToInjectWebApi(loggers).NeedsInjection?;
      assert r.performed == (trace + [Lookup(ExceptionLoggerType)]) + q.performed;
      PrefixOfConcat(trace + [Lookup(ExceptionLoggerType)], q.performed, WebApiGuardSetup);
      PrefixOfConcat(trace, [Lookup(ExceptionLoggerType)], all);
    }
  }

}
