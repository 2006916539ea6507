/** Reading a tape in place: four cursors, each moved past what it has read. */
module Cursors {
  import opened Prelude
  import opened Graph
  import opened Tapes

  const CHUNK: nat := 4096

  class Cursor {
    const tape: Tape
    var at: nat
    var numberAt: nat
    var textAt: nat
    var leafAt: nat

    ghost predicate Valid()
      reads this
    {
      at <= |tape.codes| && numberAt <= |tape.numbers| && textAt <= |tape.text| && leafAt <= |tape.leaves|
    }

    /** What is left to read. */
    ghost function Rest(): Tape
      requires Valid()
      reads this
    {
      Tape(tape.codes[at..], tape.numbers[numberAt..], tape.text[textAt..], tape.leaves[leafAt..])
    }

    constructor (tape: Tape)
      ensures this.tape == tape && Valid() && Rest() == tape
    {
      this.tape := tape;
      at, numberAt, textAt, leafAt := 0, 0, 0, 0;
    }

    method AtEnd() returns (end: bool)
      requires Valid()
      ensures end <==> at == |tape.codes|
      ensures end <==> Rest().codes == []
    {
      end := at == |tape.codes|;
    }

    method Remaining() returns (t: Tape)
      requires Valid()
      ensures t == Rest()
    {
      t := Tape(tape.codes[at..], tape.numbers[numberAt..], tape.text[textAt..], tape.leaves[leafAt..]);
    }

    method NextCode() returns (code: Code)
      requires Valid() && at < |tape.codes|
      modifies this`at
      ensures Valid() && at == old(at) + 1 && old(Rest()).codes != []
      ensures code == old(Rest()).codes[0] && Rest() == Skip(old(Rest()))
    {
      code := tape.codes[at];
      at := at + 1;
    }

    method NextNumber() returns (n: Option<Number>)
      requires Valid()
      modifies this`numberAt
      ensures Valid()
      ensures n.None? <==> old(Rest()).numbers == []
      ensures n.Some? ==> n.value == old(Rest()).numbers[0] && numberAt == old(numberAt) + 1
      ensures Rest() == if n.Some? then old(Rest()).(numbers := old(Rest()).numbers[1..]) else old(Rest())
    {
      if numberAt == |tape.numbers| {
        return None;
      }
      n := Some(tape.numbers[numberAt]);
      numberAt := numberAt + 1;
    }

    method NextLeaf() returns (leaf: Option<nat>)
      requires Valid()
      modifies this`leafAt
      ensures Valid()
      ensures leaf.None? <==> old(Rest()).leaves == []
      ensures leaf.Some? ==> leaf.value == old(Rest()).leaves[0]
      ensures Rest() == if leaf.Some? then old(Rest()).(leaves := old(Rest()).leaves[1..]) else old(Rest())
    {
      if leafAt == |tape.leaves| {
        return None;
      }
      leaf := Some(tape.leaves[leafAt]);
      leafAt := leafAt + 1;
    }

    /** The text whose length is the next number. */
    method ReadText() returns (t: Option<Text>)
      requires Valid()
      modifies this`numberAt, this`textAt
      ensures Valid()
      ensures t.Some? <==> HasText(old(Rest()))
      ensures t.Some? ==>
        var was := old(Rest());
        var n := CountOf(was.numbers[0]);
        t.value == was.text[..n] && Rest() == was.(numbers := was.numbers[1..], text := was.text[n..])
    {
      hide CountOf;
      var length := NextNumber();
      if length.None? || CountOf(length.value) > |tape.text| - textAt {
        return None;
      }
      var n := CountOf(length.value);
      t := Some(tape.text[textAt..textAt + n]);
      textAt := textAt + n;
    }

    /** As many code units as the next number says, in chunks. */
    method ReadUnits() returns (t: Option<Text>)
      requires Valid()
      modifies this`numberAt
      ensures Valid()
      ensures t.Some? <==> old(Rest()).numbers != [] && CountOf(old(Rest()).numbers[0]) < |old(Rest()).numbers|
      ensures t.Some? ==>
        var was := old(Rest());
        var n := CountOf(was.numbers[0]);
        t.value == UnitsOf(was.numbers[1..n + 1]) && Rest() == was.(numbers := was.numbers[n + 1..])
    {
      hide CountOf, UnitsOf;
      ghost var was := Rest();
      var first := NextNumber();
      if first.None? {
        return None;
      }
      var length := CountOf(first.value);
      assert |was.numbers| == |tape.numbers| - numberAt + 1;
      if length > |tape.numbers| - numberAt {
        return None;
      }
      assert was.numbers[1..length + 1] == tape.numbers[numberAt..numberAt + length];
      assert was.numbers[length + 1..] == tape.numbers[numberAt + length..];
      var units := UnitsFrom(length);
      t := Some(units);
    }

    method UnitsFrom(length: nat) returns (units: Text)
      requires Valid() && numberAt + length <= |tape.numbers|
      modifies this`numberAt
      ensures numberAt == old(numberAt) + length
      ensures units == UnitsOf(tape.numbers[old(numberAt)..numberAt])
    {
      hide UnitOf;
      var start := numberAt;
      units := [];
      var offset := 0;
      while offset < length
        invariant offset <= length && numberAt == start + offset
        invariant units == UnitsOf(tape.numbers[start..numberAt])
        decreases length - offset
      {
        var size := if length - offset < CHUNK then length - offset else CHUNK;
        for i := 0 to size
          invariant numberAt == start + offset + i
          invariant units == UnitsOf(tape.numbers[start..numberAt])
        {
          units := units + [UnitOf(tape.numbers[numberAt])];
          numberAt := numberAt + 1;
        }
        offset := offset + size;
      }
    }

    /** Reads one leaf whose code was read already. */
    method ReadLeaf(code: Code, ghost was: Tape) returns (leaf: Option<Leaf>)
      requires Valid() && was.codes != [] && was.codes[0] == code && Rest() == Skip(was)
      modifies this`numberAt, this`textAt, this`leafAt
      ensures Valid()
      ensures leaf.Some? ==> TakeLeaf(was) == Some(Taken(leaf.value, Rest()))
      ensures leaf.None? ==> TakeLeaf(was) == None
    {
      hide CountOf, UnitsOf, IntegerOf, IsInteger;
      if code == UNDEFINED { return Some(Undefined); }
      if code == NULL { return Some(Null); }
      if code == TRUE { return Some(Boolean(true)); }
      if code == FALSE { return Some(Boolean(false)); }
      if code == BARE_SYMBOL { return Some(Symbol(None)); }
      if code == NUMBER {
        var n := NextNumber();
        return if n.None? then None else Some(Numeric(n.value));
      }
      if code == LEAF {
        var handle := NextLeaf();
        return if handle.None? then None else Some(Function(handle.value));
      }
      if code == UNITS {
        var units := ReadUnits();
        return if units.None? then None else Some(String(units.value));
      }
      if code != TEXT && code != BIGINT && code != SYMBOL {
        return None;
      }
      var t := ReadText();
      if t.None? {
        return None;
      }
      return WordLeaf(code, t.value);
    }
  }
}
