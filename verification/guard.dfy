/**
 * The injection guards: read-only scans of a live registry for an object whose
 * type carries the public static `IsAutoInjected` field set to `true`.
 */
module Guard {
  import opened Options
  import opened Resolver
  import opened Handlers

  /** What a type offers under the name `IsAutoInjected` as a public static field. */
  datatype Marker = NoMarker | BoolMarker(value: bool) | NonBoolMarker

  /** The runtime type of a registered object, reduced to its name and marker. */
  datatype ClrType = ClrType(name: string, marker: Marker)

  /** An object in a registry: one the host or a third party put there, or a synthesized wrapper. */
  datatype Obj = Foreign(typ: ClrType) | MvcWrapper(mvc: MvcHandler) | WebApiWrapper(webApi: WebApiHandler)

  function TypeOf(o: Obj): (t: ClrType)
    ensures !o.Foreign? ==> t.marker == BoolMarker(true)
    ensures o.MvcWrapper? ==> t.name == MvcHandlerName
    ensures o.WebApiWrapper? ==> t.name == WebApiHandlerName
  {
    match o
    case Foreign(t) => t
    case MvcWrapper(_) => ClrType(MvcHandlerName, BoolMarker(IsAutoInjected))
    case WebApiWrapper(_) => ClrType(WebApiHandlerName, BoolMarker(IsAutoInjected))
  }

  /**
   * An element of the MVC global filter collection: a `System.Web.Mvc.Filter`
   * wrapper with a possibly null `Instance`, or an object of some other type.
   */
  datatype MvcEntry = Filter(instance: Option<Obj>) | OtherEntry(obj: Obj)

  /** Outcome of a guard: inject, skip because of an already installed type, or an exception. */
  datatype GuardResult = NeedsInjection | AlreadyPresent(typeName: string) | GuardFailed(error: Exc)

  predicate Marked(t: ClrType)
  {
    t.marker == BoolMarker(true)
  }

  /** The MVC guard looks at an entry only if it is exactly a `Filter` with a non-null instance. */
  predicate InspectedMvc(e: MvcEntry)
  {
    e.Filter? && e.instance.Some?
  }

  predicate MarkedMvc(e: MvcEntry)
  {
    InspectedMvc(e) && Marked(TypeOf(e.instance.value))
  }

  /** The `(bool)` cast of the marker value throws for this entry. */
  predicate CastFailsMvc(e: MvcEntry)
  {
    InspectedMvc(e) && TypeOf(e.instance.value).marker == NonBoolMarker
  }

  predicate HasMarkedMvc(filters: seq<MvcEntry>)
  {
    exists i :: 0 <= i < |filters| && MarkedMvc(filters[i])
  }

  predicate HasMarkedLogger(loggers: seq<Obj>)
  {
    exists i :: 0 <= i < |loggers| && Marked(TypeOf(loggers[i]))
  }

  /**
   * The MVC scan: entries that are not exactly `Filter`, null instances,
   * missing markers and `false` markers are skipped; the first marked instance
   * stops the scan with "already injected"; a marker that is not a bool makes
   * the cast throw.
   */
  function NeedToInjectMvc(filters: seq<MvcEntry>): (r: GuardResult)
    ensures r.NeedsInjection? <==>
      forall i :: 0 <= i < |filters| ==> !MarkedMvc(filters[i]) && !CastFailsMvc(filters[i])
    ensures r.AlreadyPresent? ==>
      exists i :: 0 <= i < |filters| && MarkedMvc(filters[i]) && r.typeName == TypeOf(filters[i].instance.value).name
    ensures r.GuardFailed? ==>
      exists i :: 0 <= i < |filters| && CastFailsMvc(filters[i]) && r.error == InvalidCast(TypeOf(filters[i].instance.value).name)
    ensures (forall i :: 0 <= i < |filters| ==> !CastFailsMvc(filters[i])) ==>
      (r.AlreadyPresent? <==> HasMarkedMvc(filters))
  {
    if filters == [] then NeedsInjection
    else
      var e := filters[0];
      if !InspectedMvc(e) then NeedToInjectMvc(filters[1..])
      else
        var t := TypeOf(e.instance.value);
        match t.marker
        case NoMarker => NeedToInjectMvc(filters[1..])
        case NonBoolMarker => GuardFailed(InvalidCast(t.name))
        case BoolMarker(b) => if b then AlreadyPresent(t.name) else NeedToInjectMvc(filters[1..])
  }

  /**
   * The WebApi scan over the registered `IExceptionLogger` services: every
   * logger's type is inspected; the first marked one stops the scan.
   */
  function NeedToInjectWebApi(loggers: seq<Obj>): (r: GuardResult)
    ensures r.NeedsInjection? <==>
      forall i :: 0 <= i < |loggers| ==> TypeOf(loggers[i]).marker !in {BoolMarker(true), NonBoolMarker}
    ensures r.AlreadyPresent? ==>
      exists i :: 0 <= i < |loggers| && Marked(TypeOf(loggers[i])) && r.typeName == TypeOf(loggers[i]).name
    ensures r.GuardFailed? ==>
      exists i :: 0 <= i < |loggers| && TypeOf(loggers[i]).marker == NonBoolMarker && r.error == InvalidCast(TypeOf(loggers[i]).name)
    ensures (forall i :: 0 <= i < |loggers| ==> TypeOf(loggers[i]).marker != NonBoolMarker) ==>
      (r.AlreadyPresent? <==> HasMarkedLogger(loggers))
  {
    if loggers == [] then NeedsInjection
    else
      var t := TypeOf(loggers[0]);
      match t.marker
      case NoMarker => NeedToInjectWebApi(loggers[1..])
      case NonBoolMarker => GuardFailed(InvalidCast(t.name))
      case BoolMarker(b) => if b then AlreadyPresent(t.name) else NeedToInjectWebApi(loggers[1..])
  }

  /** An MVC entry that ends the scan: marked, or with a marker the cast rejects. */
  predicate DecisiveMvc(e: MvcEntry)
  {
    MarkedMvc(e) || CastFailsMvc(e)
  }

  /**
   * The MVC scan stops at the first decisive filter: its type name is reported
   * as already injected when its marker is `true`, and as the failed cast
   * otherwise, whatever the filters after it hold.
   */
  lemma {:induction false} NeedToInjectMvcFirstDecides(filters: seq<MvcEntry>, k: nat)
    requires k < |filters| && DecisiveMvc(filters[k])
    requires forall i :: 0 <= i < k ==> !DecisiveMvc(filters[i])
    ensures MarkedMvc(filters[k]) ==> NeedToInjectMvc(filters) == AlreadyPresent(TypeOf(filters[k].instance.value).name)
    ensures CastFailsMvc(filters[k]) ==> NeedToInjectMvc(filters) == GuardFailed(InvalidCast(TypeOf(filters[k].instance.value).name))
  {
    if k > 0 {
      assert !DecisiveMvc(filters[0]);
      NeedToInjectMvcFirstDecides(filters[1..], k - 1);
    }
  }

  /** A logger whose type ends the WebApi scan. */
  predicate DecisiveLogger(o: Obj)
  {
    TypeOf(o).marker in {BoolMarker(true), NonBoolMarker}
  }

  /** The WebApi scan stops at the first decisive logger, whatever follows it. */
  lemma {:induction false} NeedToInjectWebApiFirstDecides(loggers: seq<Obj>, k: nat)
    requires k < |loggers| && DecisiveLogger(loggers[k])
    requires forall i :: 0 <= i < k ==> !DecisiveLogger(loggers[i])
    ensures Marked(TypeOf(loggers[k])) ==> NeedToInjectWebApi(loggers) == AlreadyPresent(TypeOf(loggers[k]).name)
    ensures TypeOf(loggers[k]).marker == NonBoolMarker ==>
      NeedToInjectWebApi(loggers) == GuardFailed(InvalidCast(TypeOf(loggers[k]).name))
  {
    if k > 0 {
      assert !DecisiveLogger(loggers[0]);
      NeedToInjectWebApiFirstDecides(loggers[1..], k - 1);
    }
  }
}
