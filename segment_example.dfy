/*
 * A caller of the accessor over a four-document segment, with reals standing
 * in for floats and doubles. Everything asserted here follows from the
 * accessor's contracts alone.
 */
module SegmentExample {
  import opened FloatFieldData

  method FourDocuments(format: real -> string)
  {
    var order := new int[4];
    order[0], order[1], order[2], order[3] := 0, 1, 2, 1;
    var values := new real[3];
    values[0], values[1], values[2] := 0.0, 3.5, 7.25;
    var noFloats := new real[0];
    var noDoubles := new real[0];
    var fd := new SingleValueFloatFieldData(order, values, x => x, format, noFloats, noDoubles);

    assert !fd.HasValue(0);
    assert fd.HasValue(1) && fd.Value(1) == 3.5;
    assert fd.HasValue(2) && fd.Value(2) == 7.25;
    assert fd.HasValue(3) && fd.Value(3) == 3.5;

    var none := fd.Values(0);
    assert none == noFloats && none[..] == [];

    var two := fd.DoubleValues(2);
    assert two[..] == [7.25];

    assert fd.ForEachStringValueInDoc(0) == [];
    assert fd.ForEachStringValueInDoc(1) == [(1, format(3.5))];

    // The returned buffer is reused: it holds only the latest document's value.
    var one := fd.Values(1);
    assert one[..] == [3.5];
    var again := fd.Values(2);
    assert again == one && one[..] == [7.25];
    var twice := fd.Values(2);
    assert twice == again && twice[..] == [7.25];
  }

  /** A document without a value is read without touching the dictionary, even an empty one. */
  method EmptyDictionary(format: real -> string)
  {
    var order := new int[1];
    order[0] := 0;
    var values := new real[0];
    var noFloats := new real[0];
    var noDoubles := new real[0];
    var fd := new SingleValueFloatFieldData(order, values, x => x, format, noFloats, noDoubles);

    assert !fd.HasValue(0);
    var none := fd.Values(0);
    assert none == noFloats;
    var noneD := fd.DoubleValues(0);
    assert noneD == noDoubles;
    assert fd.ForEachStringValueInDoc(0) == [] && fd.ForEachDoubleValueInDoc(0) == [];
  }
}
