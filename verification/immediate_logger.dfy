/**
 * The immediate logger of 006_callbacks_2.rb: `log` runs the block at once on
 * the module's `output` list, which it creates on first use, and `play`
 * prints that list. Like the deferred logger, the module-level `Logger` is an
 * object here, passed to its callers.
 */
module ImmediateLogger {
  import opened Options
  import opened RubyText
  import opened LogEvents
  import DeferredLogger

  class Logger {
    /** The `output` accessor: nil until the first `log`. */
    var output: Option<seq<string>>

    constructor ()
      ensures output == None
    {
      output := None;
    }

    /** `log` (lines 6-9): `output ||= []`, then the block is called on it,
        appending its one line. */
    method Log(e: Event)
      modifies this
      ensures output == Some(Apply(e, old(output).GetOr([])))
    {
      output := Some(Apply(e, output.GetOr([])));
    }

    /** `play` (lines 11-13): nil when nothing was logged, since `nil.join`
        raises; otherwise the lines joined with newlines. The method has no
        frame, so `output` is left as it is. */
    method Play() returns (text: Option<string>)
      ensures output.None? ==> text.None?
      ensures output.Some? ==> text == Some(Join(output.value, "\n"))
    {
      if output.None? {
        return None;
      }
      text := Some(Join(output.value, "\n"));
    }
  }

  class Thing {
    /** `Thing#initialize(id)` (lines 17-19): the line for its id is appended
        to the output at once. */
    constructor (id: nat, logger: Logger)
      modifies logger
      ensures logger.output == Some(old(logger.output).GetOr([]) + ["created thing " + IntToS(id)])
    {
      logger.Log(CreatedThing(id));
    }
  }

  /** `do_something` (lines 22-24): the output gains "created thing 0" ..
      "created thing 999", in id order, after whatever it held. */
  method DoSomething(logger: Logger)
    modifies logger
    ensures logger.output == Some(old(logger.output).GetOr([]) + Lines(Things(1000)))
  {
    ghost var start := logger.output.GetOr([]);
    var i := 0;
    while i < 1000
      invariant 0 <= i <= 1000
      invariant logger.output == if i == 0 then old(logger.output) else Some(start + Lines(Things(i)))
    {
      ghost var before := logger.output.GetOr([]);
      assert before == start + Lines(Things(i));
      assert Lines(Things(i + 1)) == Lines(Things(i)) + [Line(CreatedThing(i))];
      assert start + Lines(Things(i + 1)) == before + [Line(CreatedThing(i))];
      var thing := new Thing(i, logger);
      assert logger.output == Some(before + [Line(CreatedThing(i))]);
      i := i + 1;
    }
  }

  /** The script: `do_something`, then `Logger.play`, printing "created thing
      0" .. "created thing 999", one per line. */
  method Script() returns (text: Option<string>)
    ensures text == Some(Join(Lines(Things(1000)), "\n"))
  {
    var logger := new Logger();
    DoSomething(logger);
    assert [] + Lines(Things(1000)) == Lines(Things(1000));
    text := logger.Play();
  }

  /** `Logger.play` before anything was logged fails. */
  method PlayFirst() returns (text: Option<string>)
    ensures text == None
  {
    var logger := new Logger();
    text := logger.Play();
  }

  /** The same blocks logged to both loggers give the same played text: the
      immediate logger has applied each block when it was logged, in the
      order the deferred one replays them. With nothing logged both fail. */
  method SameLines(events: seq<Event>) returns (deferred: Option<string>, immediate: Option<string>)
    ensures deferred == immediate
    ensures events == [] <==> immediate.None?
    ensures events != [] ==> immediate == Some(Join(Lines(events), "\n"))
  {
    var d := new DeferredLogger.Logger();
    var m := new Logger();
    var i := 0;
    while i < |events|
      invariant 0 <= i <= |events|
      invariant d.logActions == if i == 0 then None else Some(events[..i])
      invariant m.output == if i == 0 then None else Some(Lines(events[..i]))
    {
      assert events[..i + 1] == events[..i] + [events[i]];
      assert Lines(events[..i + 1]) == Lines(events[..i]) + [Line(events[i])];
      d.Log(events[i]);
      m.Log(events[i]);
      i := i + 1;
    }
    assert events[..i] == events;
    deferred := d.Play();
    immediate := m.Play();
  }
}
