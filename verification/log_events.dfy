/**
 * The logged block shared by both loggers of 006_callbacks_1.rb and
 * 006_callbacks_2.rb: `Thing.new(id)` logs
 * `{ |output| output << "created thing #{id}" }`. A block is modelled by the
 * id it captures; calling it on an output list appends its line.
 */
module LogEvents {
  import opened RubyText

  /** The block built by `Thing#initialize(id)`. */
  datatype Event = CreatedThing(id: nat)

  const Prefix: string := "created thing "

  /** `"created thing #{id}"`. */
  function Line(e: Event): (line: string)
    ensures |line| > |Prefix| && line[..|Prefix|] == Prefix
    ensures ToI(line[|Prefix|..]) == e.id
  {
    var line := Prefix + IntToS(e.id);
    assert line[|Prefix|..] == IntToS(e.id);
    ToIOfIntToS(e.id);
    line
  }

  /** Different things log different lines. */
  lemma LineInjective(a: Event, b: Event)
    requires Line(a) == Line(b)
    ensures a == b
  {
  }

  /** Calling the block on `output`: one line appended at the end. */
  function Apply(e: Event, output: seq<string>): (r: seq<string>)
    ensures |r| == |output| + 1 && r[..|output|] == output && r[|output|] == Line(e)
  {
    output + [Line(e)]
  }

  /** Reference definition: the line of each event, in order. */
  function Lines(events: seq<Event>): (r: seq<string>)
    ensures |r| == |events|
  {
    seq(|events|, i requires 0 <= i < |events| => Line(events[i]))
  }

  /** `events.each { |e| e.call(output) }`: the blocks applied in order. */
  function Replay(events: seq<Event>, output: seq<string>): (r: seq<string>)
    ensures |r| == |output| + |events|
    ensures r[..|output|] == output
  {
    if events == [] then output else Replay(events[1..], Apply(events[0], output))
  }

  /** Replaying appends the events' lines, in order, to what was there. */
  lemma {:induction false} ReplayAppendsLines(events: seq<Event>, output: seq<string>)
    ensures Replay(events, output) == output + Lines(events)
  {
    if events != [] {
      ReplayAppendsLines(events[1..], Apply(events[0], output));
      assert Lines(events) == [Line(events[0])] + Lines(events[1..]);
    }
  }

  /** `1000.times { |i| Thing.new(i) }` logs the things 0 .. n - 1 in order. */
  function Things(n: nat): (events: seq<Event>)
    ensures |events| == n
  {
    seq(n, i requires 0 <= i < n => CreatedThing(i))
  }

  /** The lines of things 0 .. n - 1 are "created thing 0" .. "created thing
      n-1", in id order. */
  lemma ThingLines(n: nat)
    ensures forall i :: 0 <= i < n ==> Lines(Things(n))[i] == Prefix + IntToS(i)
    ensures forall i :: 0 <= i < n ==> ToI(Lines(Things(n))[i][|Prefix|..]) == i
  {
  }
}
