/**
 * Destructive iteration from 007_iter_1.rb: an array drained front-first
 * with `shift`, both by the `while list.count > 0` loop of the script and by
 * the `Array#each!` it defines, next to plain `each`, which only reads. The
 * block each element is yielded to is abstracted: the methods return the
 * sequence of values they yield, in order.
 */
module Draining {
  import opened Options

  /** A Ruby Array whose contents `shift` updates in place. */
  class RubyArray<T> {
    var items: seq<T>

    constructor (initial: seq<T>)
      ensures items == initial
    {
      items := initial;
    }

    /** Array#count. */
    function Count(): (n: nat)
      reads this
      ensures n == |items|
    {
      |items|
    }

    /** Array#shift: removes and answers the first element, nil when empty. */
    method Shift() returns (first: Option<T>)
      modifies this
      ensures old(items) == [] ==> first == None && items == []
      ensures old(items) != [] ==> first == Some(old(items)[0]) && items == old(items)[1..]
    {
      if items == [] {
        first := None;
      } else {
        first := Some(items[0]);
        items := items[1..];
      }
    }

    /** `each!` (lines 33-39): while anything is left, shift the first element
        and yield it. Every element is yielded once, in the original order,
        one yield per element of the initial count, and the array ends empty.
        Each shift takes one off the count, which is why the loop ends. */
    method EachBang() returns (yielded: seq<T>)
      modifies this
      ensures yielded == old(items)
      ensures |yielded| == old(Count())
      ensures items == []
    {
      yielded := [];
      while Count() > 0
        invariant yielded + items == old(items)
        decreases Count()
      {
        var item := Shift();
        yielded := yielded + [item.value];
      }
    }

    /** Array#each: yields every element in order and leaves the array as it is. */
    method Each() returns (yielded: seq<T>)
      ensures yielded == items
    {
      yielded := [];
      var i := 0;
      while i < |items|
        invariant 0 <= i <= |items|
        invariant yielded == items[..i]
      {
        yielded := yielded + [items[i]];
        i := i + 1;
      }
    }
  }

  /** The drain loop of lines 20-24: `count == 500` is checked before every
      shift, so the probe fires once when the array starts with at least 500
      elements and never otherwise; the array is emptied front-first. */
  method DrainWithProbe<T>(list: RubyArray<T>) returns (shifted: seq<T>, probes: nat)
    modifies list
    ensures shifted == old(list.items)
    ensures list.items == []
    ensures probes == if |old(list.items)| >= 500 then 1 else 0
  {
    shifted, probes := [], 0;
    while list.Count() > 0
      invariant shifted + list.items == old(list.items)
      invariant probes == if |old(list.items)| >= 500 && |list.items| < 500 then 1 else 0
      decreases list.Count()
    {
      if list.Count() == 500 {
        probes := probes + 1;
      }
      var item := list.Shift();
      shifted := shifted + [item.value];
    }
  }

  /** The `each.with_index` loop of lines 6-9: the probe at index 500 fires
      once exactly when there are more than 500 elements, and the array keeps
      all of them. */
  method EachWithIndexProbe<T>(list: RubyArray<T>) returns (probes: nat)
    ensures probes == if list.Count() > 500 then 1 else 0
  {
    probes := 0;
    var i := 0;
    while i < list.Count()
      invariant 0 <= i <= list.Count()
      invariant probes == if i > 500 then 1 else 0
    {
      if i == 500 {
        probes := probes + 1;
      }
      i := i + 1;
    }
  }

  /** The script's arrays, `Array.new(1000) { Thing.new }`: draining one fires
      the probe exactly once and leaves it empty. */
  method DrainThousand() returns (probes: nat, left: nat)
    ensures probes == 1 && left == 0
  {
    var list := new RubyArray(seq(1000, i => i));
    var shifted;
    shifted, probes := DrainWithProbe(list);
    left := list.Count();
  }
}
