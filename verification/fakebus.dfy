/** The in-process router: one handler per command type, an ordered list of
    projection handlers per event type. `H` is the command handler type and
    `P` the projection handler type; running a handler is a parameter. */
module FakeBus {
  import opened Outcomes
  import opened Seqs
  import opened Messages

  datatype Bus<H, P> = Bus(commandHandlers: map<CommandType, H>, projectionHandlers: map<EventType, seq<P>>)

  function NewBus<H, P>(): Bus<H, P>
  {
    Bus(map[], map[])
  }

  /** The projection handlers registered for `t`, oldest first. */
  function HandlersFor<H, P>(b: Bus<H, P>, t: EventType): seq<P>
  {
    if t in b.projectionHandlers then b.projectionHandlers[t] else []
  }

  /** A second handler for the same command type is refused; otherwise `t`
      is added and nothing else changes. */
  function RegisterCommandHandler<H, P>(b: Bus<H, P>, t: CommandType, h: H): (r: Result<Bus<H, P>>)
    ensures t in b.commandHandlers <==> r.Err?
    ensures r.Err? ==> r.failure == DuplicateCommandHandler
    ensures r.Ok? ==>
              && r.value.commandHandlers.Keys == b.commandHandlers.Keys + {t}
              && r.value.commandHandlers[t] == h
              && (forall k :: k in b.commandHandlers ==> r.value.commandHandlers[k] == b.commandHandlers[k])
              && r.value.projectionHandlers == b.projectionHandlers
  {
    if t in b.commandHandlers then Err(DuplicateCommandHandler)
    else Ok(b.(commandHandlers := b.commandHandlers[t := h]))
  }

  /** Never fails: appends `h` after the handlers already registered for `t`. */
  function RegisterProjectionHandler<H, P>(b: Bus<H, P>, t: EventType, h: P): (r: Bus<H, P>)
    ensures r.projectionHandlers.Keys == b.projectionHandlers.Keys + {t}
    ensures HandlersFor(r, t) == HandlersFor(b, t) + [h]
    ensures forall k :: k != t ==> HandlersFor(r, k) == HandlersFor(b, k)
    ensures r.commandHandlers == b.commandHandlers
  {
    b.(projectionHandlers := b.projectionHandlers[t := HandlersFor(b, t) + [h]])
  }

  /** `Send`: fails when no handler is registered for the command's type,
      otherwise runs that one handler and passes on whatever it returns. */
  function Send<H, P, S>(b: Bus<H, P>, c: Command, invoke: (H, Command) -> Result<S>): (r: Result<S>)
    ensures CommandTypeOf(c) !in b.commandHandlers ==> r == Err(NoCommandHandler)
    ensures CommandTypeOf(c) in b.commandHandlers ==> r == invoke(b.commandHandlers[CommandTypeOf(c)], c)
  {
    var t := CommandTypeOf(c);
    if t !in b.commandHandlers then Err(NoCommandHandler) else invoke(b.commandHandlers[t], c)
  }

  /** What a handler contributed, or nothing when it failed. */
  function OutputOf<O>(r: Result<seq<O>>): seq<O>
  {
    if r.Ok? then r.value else []
  }

  /** Each handler's contribution, in order. */
  function Outputs<P, O>(hs: seq<P>, e: Event, run: (P, Event) -> Result<seq<O>>): seq<seq<O>>
  {
    seq(|hs|, i requires 0 <= i < |hs| => OutputOf(run(hs[i], e)))
  }

  lemma OutputsCons<P, O>(hs: seq<P>, e: Event, run: (P, Event) -> Result<seq<O>>)
    requires hs != []
    ensures Outputs(hs, e, run) == [OutputOf(run(hs[0], e))] + Outputs(hs[1..], e, run)
  {
    assert Outputs(hs, e, run)[1..] == Outputs(hs[1..], e, run);
  }

  /** Runs `hs` in order on `e` and concatenates their outputs; the first
      handler that fails aborts the rest. */
  function RunAll<P, O>(hs: seq<P>, e: Event, run: (P, Event) -> Result<seq<O>>): (r: Result<seq<O>>)
    ensures r.Ok? <==> forall i :: 0 <= i < |hs| ==> run(hs[i], e).Ok?
    ensures r.Ok? ==> r.value == Flatten(Outputs(hs, e, run))
    ensures r.Err? ==> exists i :: 0 <= i < |hs| && run(hs[i], e) == Err(r.failure)
                                   && forall j :: 0 <= j < i ==> run(hs[j], e).Ok?
    decreases |hs|
  {
    if hs == [] then Ok([])
    else
      match run(hs[0], e)
      case Err(f) => Err(f)
      case Ok(out) =>
        match RunAll(hs[1..], e, run)
        case Err(f) => Err(f)
        case Ok(rest) =>
          OutputsCons(hs, e, run);
          Ok(out + rest)
  }

  /** `Publish`: the concatenated includes of every projection handler
      registered for the event's type, in registration order; an event type
      with none yields the empty sequence. */
  function Publish<H, P, O>(b: Bus<H, P>, e: Event, run: (P, Event) -> Result<seq<O>>): (r: Result<seq<O>>)
    ensures TypeOf(e) !in b.projectionHandlers ==> r == Ok([])
    ensures r.Ok? <==> forall i :: 0 <= i < |HandlersFor(b, TypeOf(e))| ==> run(HandlersFor(b, TypeOf(e))[i], e).Ok?
    ensures r.Ok? ==> r.value == Flatten(Outputs(HandlersFor(b, TypeOf(e)), e, run))
    ensures r.Err? ==> exists i :: 0 <= i < |HandlersFor(b, TypeOf(e))| && run(HandlersFor(b, TypeOf(e))[i], e) == Err(r.failure)
                                   && forall j :: 0 <= j < i ==> run(HandlersFor(b, TypeOf(e))[j], e).Ok?
  {
    var t := TypeOf(e);
    if t !in b.projectionHandlers then Ok([]) else RunAll(HandlersFor(b, t), e, run)
  }

  /** A handler registered later contributes after the earlier ones. */
  lemma {:induction false} RunAllAppend<P, O>(hs: seq<P>, h: P, e: Event, run: (P, Event) -> Result<seq<O>>)
    requires RunAll(hs, e, run).Ok? && run(h, e).Ok?
    ensures RunAll(hs + [h], e, run) == Ok(RunAll(hs, e, run).value + run(h, e).value)
    decreases |hs|
  {
    if hs == [] {
      assert ([] + [h])[1..] == [];
      assert RunAll([h], e, run) == Ok(run(h, e).value + []);
      assert run(h, e).value + [] == [] + run(h, e).value;
    } else {
      assert (hs + [h])[0] == hs[0];
      assert (hs + [h])[1..] == hs[1..] + [h];
      var out := run(hs[0], e).value;
      assert RunAll(hs, e, run) == Ok(out + RunAll(hs[1..], e, run).value);
      RunAllAppend(hs[1..], h, e, run);
      assert out + (RunAll(hs[1..], e, run).value + run(h, e).value)
             == (out + RunAll(hs[1..], e, run).value) + run(h, e).value;
    }
  }

  /** Registering a projection handler for the event's type makes Publish
      return the old output followed by the new handler's output. */
  lemma PublishAfterRegistration<H, P, O>(b: Bus<H, P>, h: P, e: Event, run: (P, Event) -> Result<seq<O>>)
    requires Publish(b, e, run).Ok? && run(h, e).Ok?
    ensures Publish(RegisterProjectionHandler(b, TypeOf(e), h), e, run) == Ok(Publish(b, e, run).value + run(h, e).value)
  {
    var t := TypeOf(e);
    RunAllAppend(HandlersFor(b, t), h, e, run);
  }

  /** A registered command handler is the one Send runs, and registering
      another for the same type is refused. */
  lemma RegisterThenSend<H, P, S>(b: Bus<H, P>, h: H, h2: H, c: Command, invoke: (H, Command) -> Result<S>)
    requires RegisterCommandHandler(b, CommandTypeOf(c), h).Ok?
    ensures var b' := RegisterCommandHandler(b, CommandTypeOf(c), h).value;
            && Send(b', c, invoke) == invoke(h, c)
            && RegisterCommandHandler(b', CommandTypeOf(c), h2) == Err(DuplicateCommandHandler)
  {
  }
}
