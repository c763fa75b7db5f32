// The "Distinct Array" Blueprint node: its compile handler writes to the
// output array every value that occurs in all input arrays, once, in the
// order the inputs are scanned; the node itself names its input pins
// "Array [i]", starts with two of them, and refuses exec pins and, on an
// input, pins that are not containers.
module DistinctArray {
  import opened Common

  /** A value occurring in every input array. */
  predicate InAll<T(==)>(inputs: seq<seq<T>>, x: T)
  {
    forall b :: 0 <= b < |inputs| ==> x in inputs[b]
  }

  /** The input arrays one after the other, in pin order. */
  function Flat<T>(inputs: seq<seq<T>>): seq<T>
  {
    if inputs == [] then [] else Flat(inputs[..|inputs| - 1]) + inputs[|inputs| - 1]
  }

  /** One scanned value: appended when it occurs in all inputs and the output does not hold it yet. */
  function Add<T(==)>(inputs: seq<seq<T>>, out: seq<T>, x: T): seq<T>
  {
    if InAll(inputs, x) && x !in out then out + [x] else out
  }

  /** The output after scanning the values of s in order, starting from an empty output. */
  function Collect<T(==)>(inputs: seq<seq<T>>, s: seq<T>): seq<T>
  {
    if s == [] then [] else Add(inputs, Collect(inputs, s[..|s| - 1]), s[|s| - 1])
  }

  lemma CollectSnoc<T>(inputs: seq<seq<T>>, s: seq<T>, x: T)
    ensures Collect(inputs, s + [x]) == Add(inputs, Collect(inputs, s), x)
  {
    assert (s + [x])[..|s|] == s;
  }

  lemma FlatSnoc<T>(inputs: seq<seq<T>>, a: int)
    requires 0 <= a < |inputs|
    ensures Flat(inputs[..a + 1]) == Flat(inputs[..a]) + inputs[a]
  {
    assert inputs[..a + 1][..a] == inputs[..a];
  }

  /** The output is duplicate-free and holds exactly the scanned values that occur in all inputs. */
  lemma {:induction false} CollectContents<T>(inputs: seq<seq<T>>, s: seq<T>)
    ensures NoDup(Collect(inputs, s))
    ensures forall x :: x in Collect(inputs, s) <==> x in s && InAll(inputs, x)
  {
    if s != [] {
      var init := s[..|s| - 1];
      var last := s[|s| - 1];
      CollectContents(inputs, init);
      assert s == init + [last];
      if InAll(inputs, last) && last !in Collect(inputs, init) {
        NoDupSnoc(Collect(inputs, init), last);
      }
    }
  }

  /** Scanning further values that are either not common or already scanned changes nothing. */
  lemma {:induction false} CollectIgnoresCovered<T>(inputs: seq<seq<T>>, s: seq<T>, t: seq<T>)
    requires forall x :: x in t && InAll(inputs, x) ==> x in s
    ensures Collect(inputs, s + t) == Collect(inputs, s)
  {
    if t != [] {
      var init := t[..|t| - 1];
      var last := t[|t| - 1];
      assert s + t == (s + init) + [last];
      CollectIgnoresCovered(inputs, s, init);
      CollectSnoc(inputs, s + init, last);
      CollectContents(inputs, s + init);
      if InAll(inputs, last) {
        assert last in s + init;
      }
    } else {
      assert s + t == s;
    }
  }

  lemma {:induction false} FlatCons<T>(inputs: seq<seq<T>>)
    requires |inputs| > 0
    ensures Flat(inputs) == inputs[0] + Flat(inputs[1..])
  {
    if |inputs| > 1 {
      var init := inputs[..|inputs| - 1];
      FlatCons(init);
      assert init[1..] == inputs[1..][..|inputs| - 2];
    } else {
      assert inputs[..0] == [];
      assert inputs[1..] == [];
    }
  }

  /**
   * Because every common value occurs in the first array, the output is
   * the distinct common values of the first array, in its order.
   */
  lemma OutputFollowsFirstArray<T>(inputs: seq<seq<T>>)
    requires |inputs| > 0
    ensures Collect(inputs, Flat(inputs)) == Collect(inputs, inputs[0])
  {
    FlatCons(inputs);
    CollectIgnoresCovered(inputs, inputs[0], Flat(inputs[1..]));
  }

  /** The scan loop over one array. */
  method ArrayContains<T(==)>(arr: seq<T>, x: T) returns (found: bool)
    ensures found <==> x in arr
  {
    var i := 0;
    while i < |arr|
      invariant 0 <= i <= |arr|
      invariant x !in arr[..i]
    {
      if arr[i] == x {
        return true;
      }
      assert arr[..i + 1] == arr[..i] + [arr[i]];
      i := i + 1;
    }
    assert arr[..|arr|] == arr;
    return false;
  }

  /** The loop over the other input arrays: stops at the first one that lacks the value. */
  method ExistsInAllOthers<T(==)>(inputs: seq<seq<T>>, a: int, x: T) returns (r: bool)
    requires 0 <= a < |inputs|
    ensures r <==> forall b :: 0 <= b < |inputs| && b != a ==> x in inputs[b]
  {
    var b := 0;
    while b < |inputs|
      invariant 0 <= b <= |inputs|
      invariant forall c :: 0 <= c < b && c != a ==> x in inputs[c]
    {
      if b != a {
        var found := ArrayContains(inputs[b], x);
        if !found {
          return false;
        }
      }
      b := b + 1;
    }
    return true;
  }

  /**
   * FKCHandler_DistinctArray::Compile: for each value of each input array,
   * when every other array holds it and the output does not, append it.
   */
  method Compile<T(==)>(inputs: seq<seq<T>>) returns (out: seq<T>)
    ensures NoDup(out)
    ensures forall x :: x in out <==> |inputs| > 0 && InAll(inputs, x)
    ensures |inputs| > 0 ==> out == Collect(inputs, inputs[0])
    ensures |inputs| == 0 ==> out == []
  {
    out := [];
    var a := 0;
    while a < |inputs|
      invariant 0 <= a <= |inputs|
      invariant out == Collect(inputs, Flat(inputs[..a]))
    {
      var arr := inputs[a];
      var si := 0;
      assert Flat(inputs[..a]) + arr[..0] == Flat(inputs[..a]);
      while si < |arr|
        invariant 0 <= si <= |arr|
        invariant out == Collect(inputs, Flat(inputs[..a]) + arr[..si])
      {
        var x := arr[si];
        var existsInAll := ExistsInAllOthers(inputs, a, x);
        assert existsInAll <==> InAll(inputs, x);
        CollectSnoc(inputs, Flat(inputs[..a]) + arr[..si], x);
        assert Flat(inputs[..a]) + arr[..si + 1] == Flat(inputs[..a]) + arr[..si] + [x];
        if existsInAll {
          var alreadyInOutput := ArrayContains(out, x);
          if !alreadyInOutput {
            out := out + [x];
          }
        }
        si := si + 1;
      }
      assert arr[..|arr|] == arr;
      FlatSnoc(inputs, a);
      a := a + 1;
    }
    assert inputs[..|inputs|] == inputs;
    CollectContents(inputs, Flat(inputs));
    if |inputs| > 0 {
      OutputFollowsFirstArray(inputs);
      CollectContents(inputs, inputs[0]);
    }
  }

  // ---------------------------------------------------------------------
  // The node's pins.

  const OutputPinName: string := "Distinct Array"

  /** GetPinName: "Array [i]". */
  function PinName(i: nat): (r: string)
    ensures |r| >= 9 && r[..7] == "Array [" && r[|r| - 1] == ']'
  {
    "Array [" + Decimal(i) + "]"
  }

  /** Input pins have pairwise different names, none of them the output pin's. */
  lemma PinNamesDistinct(i: nat, j: nat)
    ensures PinName(i) == PinName(j) ==> i == j
    ensures PinName(i) != OutputPinName
  {
    if PinName(i) == PinName(j) {
      var a, b := PinName(i), PinName(j);
      assert a[7..|a| - 1] == Decimal(i) && b[7..|b| - 1] == Decimal(j);
      DecimalInjective(i, j);
    }
    assert PinName(i)[0] == 'A' && OutputPinName[0] == 'D';
  }

  /** A pin as IsConnectionDisallowed sees it. */
  datatype PinInfo = PinInfo(isContainer: bool, isExec: bool)

  /**
   * IsConnectionDisallowed: a missing pin, a non-container pin put on an
   * input that is not split, and any exec pin are refused, with a reason.
   */
  function IsConnectionDisallowed(myPinHasParent: bool, myPinIsInput: bool, other: Option<PinInfo>): (r: (bool, string))
    ensures r.0 <==> other.None? || (!myPinHasParent && myPinIsInput && !other.value.isContainer) || other.value.isExec
    ensures other.Some? && !r.0 ==> r.1 == ""
    ensures other.Some? && r.0 ==> r.1 != ""
  {
    if other.None? then (true, "")
    else if !myPinHasParent && !other.value.isContainer && myPinIsInput then (true, "Cannot make a container with an input of a container!")
    else if other.value.isExec then (true, "Cannot make a container with an execution input!")
    else (false, "")
  }

  /** The node: NumInputs input pins, never fewer than MinNumInputs. */
  class DistinctArrayNode {
    const minNumInputs: int
    var numInputs: int

    predicate Valid()
      reads this
    {
      minNumInputs == 2 && numInputs >= minNumInputs
    }

    constructor()
      ensures Valid() && numInputs == 2
    {
      minNumInputs := 2;
      numInputs := 2;
    }

    /** AllocateDefaultPins: the output pin, then input pins 0 .. NumInputs - 1 in order. */
    method AllocateDefaultPins() returns (pins: seq<string>)
      requires Valid()
      ensures |pins| == numInputs + 1 >= 3
      ensures pins[0] == OutputPinName
      ensures forall i :: 0 <= i < numInputs ==> pins[i + 1] == PinName(i)
    {
      pins := [OutputPinName];
      var i := 0;
      while i < numInputs
        invariant 0 <= i <= numInputs
        invariant |pins| == i + 1 && pins[0] == OutputPinName
        invariant forall k :: 0 <= k < i ==> pins[k + 1] == PinName(k)
      {
        pins := pins + [PinName(i)];
        i := i + 1;
      }
    }
  }
}
