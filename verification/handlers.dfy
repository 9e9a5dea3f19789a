/**
 * The two wrapper types the injector synthesizes at run time: an MVC
 * `HandleErrorAttribute` subtype and a WebApi `ExceptionLogger` subtype. Each
 * stores the telemetry client given to its constructor, carries the constant
 * marker `IsAutoInjected == true`, and overrides one method with a guard chain
 * that reports the exception at most once and then always calls the base method.
 */
module Handlers {
  import opened Options

  const AssemblyName := "Microsoft.ApplicationInsights.ExceptionTracker"
  const MvcHandlerName := AssemblyName + ".Mvc"
  const WebApiHandlerName := AssemblyName + ".WebApi"

  /** Value of the public static literal field `IsAutoInjected` on every synthesized type. */
  const IsAutoInjected: bool := true

  /** An exception object; `id` stands for its reference identity. */
  datatype Exception = Exception(id: nat)

  /** The telemetry client created once per injection run. */
  datatype TelemetryClient = TelemetryClient(id: nat)

  /** The telemetry record built by `new ExceptionTelemetry(exception)`. */
  datatype ExceptionTelemetry = ExceptionTelemetry(exception: Exception)

  /** `HttpContextBase`, reduced to the flag the MVC wrapper reads. */
  datatype HttpContext = HttpContext(isCustomErrorEnabled: bool)

  /** MVC `ExceptionContext`: its `HttpContext` and `Exception` may each be null. */
  datatype MvcExceptionContext = MvcExceptionContext(httpContext: Option<HttpContext>, exception: Option<Exception>)

  /** WebApi `ExceptionLoggerContext`: its `Exception` may be null. */
  datatype LoggerContext = LoggerContext(exception: Option<Exception>)

  /** What an overridden method does, in order. */
  datatype Effect =
    | TrackException(client: TelemetryClient, telemetry: ExceptionTelemetry)
    | BaseOnException(mvcContext: Option<MvcExceptionContext>)
    | BaseLog(loggerContext: Option<LoggerContext>)

  /** The four guards of the MVC override, all of which must hold to report. */
  predicate MvcShouldTrack(ctx: Option<MvcExceptionContext>)
  {
    && ctx.Some?
    && ctx.value.httpContext.Some?
    && ctx.value.exception.Some?
    && ctx.value.httpContext.value.isCustomErrorEnabled
  }

  /** The two guards of the WebApi override. */
  predicate WebApiShouldTrack(ctx: Option<LoggerContext>)
  {
    ctx.Some? && ctx.value.exception.Some?
  }

  /** The synthesized MVC filter; the constructor stores the client after calling the base constructor. */
  datatype MvcHandler = MvcHandler(telemetryClient: TelemetryClient)
  {
    /**
     * The override of `HandleErrorAttribute.OnException`: guards checked in the
     * order context, `HttpContext`, `Exception`, `IsCustomErrorEnabled`; if they all
     * pass, exactly one exception record on the stored client; then the base
     * method with the unchanged argument, in every case.
     */
    function OnException(ctx: Option<MvcExceptionContext>): (effects: seq<Effect>)
      ensures |effects| > 0 && effects[|effects| - 1] == BaseOnException(ctx)
      ensures |effects| == 2 <==> MvcShouldTrack(ctx)
      ensures |effects| <= 2
      ensures |effects| == 2 ==>
        effects[0] == TrackException(telemetryClient, ExceptionTelemetry(ctx.value.exception.value))
    {
      var tracked :=
        if ctx.None? then []
        else if ctx.value.httpContext.None? then []
        else if ctx.value.exception.None? then []
        else if !ctx.value.httpContext.value.isCustomErrorEnabled then []
        else [TrackException(telemetryClient, ExceptionTelemetry(ctx.value.exception.value))];
      tracked + [BaseOnException(ctx)]
    }
  }

  /** The synthesized WebApi exception logger; same constructor as the MVC filter. */
  datatype WebApiHandler = WebApiHandler(telemetryClient: TelemetryClient)
  {
    /**
     * The override of `ExceptionLogger.Log`: if the context and its exception are
     * non-null, exactly one exception record; then the base method with the
     * unchanged argument, in every case.
     */
    function Log(ctx: Option<LoggerContext>): (effects: seq<Effect>)
      ensures |effects| > 0 && effects[|effects| - 1] == BaseLog(ctx)
      ensures |effects| == 2 <==> WebApiShouldTrack(ctx)
      ensures |effects| <= 2
      ensures |effects| == 2 ==>
        effects[0] == TrackException(telemetryClient, ExceptionTelemetry(ctx.value.exception.value))
    {
      var tracked :=
        if ctx.None? then []
        else if ctx.value.exception.None? then []
        else [TrackException(telemetryClient, ExceptionTelemetry(ctx.value.exception.value))];
      tracked + [BaseLog(ctx)]
    }
  }
}
