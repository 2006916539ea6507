/** A tape being written, each part at its own end. */
module Writers {
  import opened Graph
  import opened Tapes

  class Writer {
    var codes: seq<Code>
    var numbers: seq<Number>
    var text: Text
    var leaves: seq<nat>

    ghost function Written(): Tape
      reads this
    {
      Tape(codes, numbers, text, leaves)
    }

    constructor ()
      ensures Written() == BLANK
    {
      codes, numbers, text, leaves := [], [], [], [];
    }

    method Put(code: Code)
      modifies this
      ensures Written() == Plus(old(Written()), OneCode(code))
    {
      codes := codes + [code];
      assert numbers == old(numbers) + [] && text == old(text) + [] && leaves == old(leaves) + [];
    }

    method PutSpelled(code: Code, value: Text)
      modifies this
      ensures Written() == Plus(old(Written()), Spelled(code, value))
    {
      codes := codes + [code];
      numbers := numbers + [Length(|value|)];
      text := text + value;
      assert leaves == old(leaves) + [];
    }

    method PutNumber(code: Code, value: Number)
      modifies this
      ensures Written() == Plus(old(Written()), Tape([code], [value], [], []))
    {
      codes := codes + [code];
      numbers := numbers + [value];
      assert text == old(text) + [] && leaves == old(leaves) + [];
    }

    method PutLeaf(handle: nat)
      modifies this
      ensures Written() == Plus(old(Written()), Tape([LEAF], [], [], [handle]))
    {
      codes := codes + [LEAF];
      leaves := leaves + [handle];
      assert text == old(text) + [] && numbers == old(numbers) + [];
    }

    method PutText(value: Text)
      modifies this
      ensures Written() == Plus(old(Written()), TextTape(value, true))
    {
      if SafeText(value) {
        PutSpelled(TEXT, value);
        return;
      }
      numbers := numbers + [Length(|value|)];
      codes := codes + [UNITS];
      for i := 0 to |value|
        invariant codes == old(codes) + [UNITS] && text == old(text) && leaves == old(leaves)
        invariant numbers == old(numbers) + [Length(|value|)] + UnitNumbers(value)[..i]
      {
        numbers := numbers + [Finite(value[i] as real)];
      }
      assert UnitNumbers(value)[..|value|] == UnitNumbers(value);
      assert numbers == old(numbers) + ([Length(|value|)] + UnitNumbers(value));
      assert text == old(text) + [] && leaves == old(leaves) + [];
    }
  }
}
