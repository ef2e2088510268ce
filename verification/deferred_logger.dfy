/**
 * The deferred logger of 006_callbacks_1.rb: `log` stores the block in
 * `log_actions` and `play` later runs every stored block, in order, on a
 * fresh local output list, and prints the lines. The module-level `Logger`
 * (its state lives in the module, `extend self`) is an object here, passed
 * to its callers.
 */
module DeferredLogger {
  import opened Options
  import opened RubyText
  import opened LogEvents

  class Logger {
    /** The `output` accessor. `play` writes to a local of the same name, so
        nothing ever assigns it. */
    var output: Option<seq<string>>
    /** The `log_actions` accessor: nil until the first `log`. */
    var logActions: Option<seq<Event>>

    constructor ()
      ensures output == None && logActions == None
    {
      output, logActions := None, None;
    }

    /** `log` (lines 6-9): `log_actions ||= []`, then the block is appended.
        The action list grows by exactly that one block at its end. */
    method Log(e: Event)
      modifies this
      ensures logActions == Some(old(logActions).GetOr([]) + [e])
      ensures output == old(output)
    {
      logActions := Some(logActions.GetOr([]) + [e]);
    }

    /** `play` (lines 11-15): nil when no block was ever logged, since
        `nil.each` raises; otherwise every block called in insertion order on
        a fresh list (the replay), and that list joined with newlines. Nothing is changed:
        the method has no frame. */
    method Play() returns (text: Option<string>)
      ensures logActions.None? ==> text.None?
      ensures logActions.Some? ==> text == Some(Join(Lines(logActions.value), "\n"))
      ensures logActions.Some? ==> text == Some(Join(Replay(logActions.value, []), "\n"))
    {
      if logActions.None? {
        return None;
      }
      var actions := logActions.value;
      var out: seq<string> := [];
      var i := 0;
      while i < |actions|
        invariant 0 <= i <= |actions|
        invariant out == Lines(actions[..i])
      {
        assert Lines(actions[..i + 1]) == Lines(actions[..i]) + [Line(actions[i])];
        out := Apply(actions[i], out);
        i := i + 1;
      }
      assert actions[..i] == actions;
      ReplayAppendsLines(actions, []);
      assert [] + Lines(actions) == Lines(actions);
      text := Some(Join(out, "\n"));
    }
  }

  class Thing {
    /** `Thing#initialize(id)` (lines 19-21): logs the block for its id. */
    constructor (id: nat, logger: Logger)
      modifies logger
      ensures logger.logActions == Some(old(logger.logActions).GetOr([]) + [CreatedThing(id)])
      ensures logger.output == old(logger.output)
    {
      logger.Log(CreatedThing(id));
    }
  }

  /** `do_something` (lines 24-26): `1000.times { |i| Thing.new(i) }` stores
      the blocks of things 0 .. 999, in order, after whatever was logged. */
  method DoSomething(logger: Logger)
    modifies logger
    ensures logger.logActions == Some(old(logger.logActions).GetOr([]) + Things(1000))
    ensures logger.output == old(logger.output)
  {
    ghost var start := logger.logActions.GetOr([]);
    var i := 0;
    while i < 1000
      invariant 0 <= i <= 1000
      invariant logger.logActions == if i == 0 then old(logger.logActions) else Some(start + Things(i))
      invariant logger.output == old(logger.output)
    {
      assert Things(i + 1) == Things(i) + [CreatedThing(i)];
      assert start + Things(i + 1) == (start + Things(i)) + [CreatedThing(i)];
      ghost var before := logger.logActions.GetOr([]);
      assert before == start + Things(i);
      var thing := new Thing(i, logger);
      assert logger.logActions == Some(before + [CreatedThing(i)]);
      i := i + 1;
    }
  }

  /** The script: `do_something`, then `Logger.play`. The actions list holds
      1000 blocks and the played text is "created thing 0" .. "created thing
      999", one per line; the `output` accessor is still nil. */
  method Script() returns (actions: nat, text: Option<string>, output: Option<seq<string>>)
    ensures actions == 1000
    ensures text == Some(Join(Lines(Things(1000)), "\n"))
    ensures output == None
  {
    var logger := new Logger();
    DoSomething(logger);
    assert [] + Things(1000) == Things(1000);
    actions := |logger.logActions.value|;
    text := logger.Play();
    output := logger.output;
  }

  /** `Logger.play` before anything was logged fails. */
  method PlayFirst() returns (text: Option<string>)
    ensures text == None
  {
    var logger := new Logger();
    text := logger.Play();
  }
}
