/*
 * Ordinal-encoded field data for a single-valued float field of a search
 * index segment.
 *
 * A segment keeps two arrays: `order`, indexed by document id, and `values`,
 * the dictionary of distinct field values. An ordinal of 0 is the sentinel
 * "this document has no value"; any other ordinal k names dictionary slot k.
 * The accessor answers per-document reads over these arrays and returns
 * array-shaped results in a single-element scratch buffer that is reused from
 * call to call.
 *
 * The float and double element types are kept abstract (type parameters F and
 * D): the accessor only stores and copies them. Widening a float to a double
 * and the canonical text of a float are supplied as the total functions
 * `widen` and `format`.
 */
module FloatFieldData {

  /** What a document holds for the field: nothing, or one value. */
  datatype Option<T> = None | Some(value: T)

  /** The values of an entry, in the array shape the field-data interface uses. */
  function Elements<T>(e: Option<T>): seq<T>
  {
    match e
    case None => []
    case Some(v) => [v]
  }

  /** Applies `f` to the value of an entry, if there is one. */
  function MapOption<T, U>(e: Option<T>, f: T -> U): Option<U>
  {
    match e
    case None => None
    case Some(v) => Some(f(v))
  }

  /** What one ordinal denotes: 0 is "no value", k > 0 is dictionary slot k. */
  function Resolve<F>(ord: int, values: seq<F>): Option<F>
    requires ord == 0 || 0 < ord < |values|
  {
    if ord == 0 then None else Some(values[ord])
  }

  /** Every ordinal is the sentinel 0 or a non-sentinel slot of the dictionary. */
  ghost predicate WellFormed<F>(order: seq<int>, values: seq<F>)
  {
    forall d :: 0 <= d < |order| ==> order[d] == 0 || 0 < order[d] < |values|
  }

  /**
   * The column an ordinal array and its dictionary encode: one entry per
   * document, absent exactly where the ordinal is the sentinel 0, and
   * otherwise the dictionary value at that ordinal (never the sentinel slot).
   */
  function Decode<F>(order: seq<int>, values: seq<F>): (column: seq<Option<F>>)
    requires WellFormed(order, values)
    ensures |column| == |order|
    ensures forall d :: 0 <= d < |order| ==> (column[d] == None <==> order[d] == 0)
    ensures forall d :: 0 <= d < |order| && order[d] != 0 ==>
              column[d] == Some(values[order[d]])
  {
    if order == [] then []
    else
      var last := |order| - 1;
      Decode(order[..last], values) + [Resolve(order[last], values)]
  }

  /**
   * Field data of one single-valued float field in one segment, as seen by
   * one calling thread: `floatsCache` and `doublesCache` are that thread's
   * single-element scratch buffers.
   */
  class SingleValueFloatFieldData<F(0), D(0)> {
    /** Ordinal per document id; 0 means the document has no value. */
    const order: array<int>
    /** The dictionary; slot 0 is the sentinel and holds no document's value. */
    const values: array<F>
    /** Float-to-double widening. */
    const widen: F -> D
    /** Canonical text of a float. */
    const format: F -> string
    /** The shared zero-length float array returned for documents without a value. */
    const emptyFloats: array<F>
    /** The shared zero-length double array returned for documents without a value. */
    const emptyDoubles: array<D>
    /** The calling thread's reused float buffer. */
    const floatsCache: array<F>
    /** The calling thread's reused double buffer. */
    const doublesCache: array<D>

    /** The shapes of the shared arrays, and the scratch buffers alias nothing else. */
    ghost predicate Valid()
    {
      emptyFloats.Length == 0 && emptyDoubles.Length == 0 &&
      floatsCache.Length == 1 && doublesCache.Length == 1 &&
      {floatsCache as object, doublesCache} !! {order as object, values} &&
      floatsCache as object != doublesCache
    }

    constructor (order: array<int>, values: array<F>, widen: F -> D, format: F -> string,
                 emptyFloats: array<F>, emptyDoubles: array<D>)
      requires emptyFloats.Length == 0 && emptyDoubles.Length == 0
      ensures Valid()
      ensures this.order == order && this.values == values
      ensures this.widen == widen && this.format == format
      ensures this.emptyFloats == emptyFloats && this.emptyDoubles == emptyDoubles
      ensures fresh(floatsCache) && fresh(doublesCache)
    {
      this.order := order;
      this.values := values;
      this.widen := widen;
      this.format := format;
      this.emptyFloats := emptyFloats;
      this.emptyDoubles := emptyDoubles;
      floatsCache := new F[1];
      doublesCache := new D[1];
    }

    /** The entry of document `docId`: what its ordinal resolves to in the dictionary. */
    function Entry(docId: int): Option<F>
      reads this, order, values
      requires 0 <= docId < order.Length
      requires order[docId] == 0 || 0 < order[docId] < values.Length
    {
      Resolve(order[docId], values[..])
    }

    /**
     * When every ordinal is in range, the reads of a document agree with its
     * entry in the decoded column of the segment.
     */
    lemma EntryInColumn(docId: int)
      requires WellFormed(order[..], values[..])
      requires 0 <= docId < order.Length
      ensures |Decode(order[..], values[..])| == order.Length
      ensures Entry(docId) == Decode(order[..], values[..])[docId]
      ensures HasValue(docId) <==> Decode(order[..], values[..])[docId] != None
      ensures Decode(order[..], values[..])[docId] != None ==>
                Decode(order[..], values[..])[docId] == Some(Value(docId))
      ensures |ForEachStringValueInDoc(docId)| == |Elements(Decode(order[..], values[..])[docId])|
    {
    }

    /** This variant is single-valued: no document ever has more than one value. */
    function MultiValued(): (r: bool)
      reads this, order, values
      ensures !r
      ensures forall d :: 0 <= d < order.Length && (order[d] == 0 || 0 < order[d] < values.Length) ==>
                |ForEachStringValueInDoc(d)| <= 1 && |ForEachDoubleValueInDoc(d)| <= 1
    {
      false
    }

    /** Whether document `docId` has a value: its ordinal is not the sentinel. */
    function HasValue(docId: int): (r: bool)
      reads this, order
      requires 0 <= docId < order.Length
      ensures r <==> order[docId] != 0
      ensures order[docId] == 0 || 0 < order[docId] < values.Length ==>
                (r <==> Entry(docId) != None)
    {
      order[docId] != 0
    }

    /**
     * The value of document `docId`. Unchecked: for a document without a value
     * it returns whatever the sentinel slot 0 holds.
     */
    function Value(docId: int): (r: F)
      reads this, order, values
      requires 0 <= docId < order.Length && 0 <= order[docId] < values.Length
      ensures HasValue(docId) ==> Entry(docId) == Some(r)
      ensures !HasValue(docId) ==> r == values[0]
    {
      values[order[docId]]
    }

    /**
     * The values of document `docId` as an array: the shared empty array when
     * it has none, otherwise the scratch buffer, overwritten with its value.
     */
    method Values(docId: int) returns (r: array<F>)
      requires Valid()
      requires 0 <= docId < order.Length
      requires order[docId] == 0 || 0 < order[docId] < values.Length
      modifies floatsCache
      ensures r[..] == Elements(Entry(docId))
      ensures Entry(docId) == None ==> r == emptyFloats && unchanged(floatsCache)
      ensures Entry(docId) != None ==> r == floatsCache
      ensures unchanged(order, values, doublesCache)
    {
      var loc := order[docId];
      if loc == 0 {
        return emptyFloats;
      }
      floatsCache[0] := values[loc];
      r := floatsCache;
    }

    /**
     * The values of document `docId` widened to doubles: the shared empty
     * double array when it has none, otherwise the double scratch buffer,
     * overwritten with its widened value.
     */
    method DoubleValues(docId: int) returns (r: array<D>)
      requires Valid()
      requires 0 <= docId < order.Length
      requires order[docId] == 0 || 0 < order[docId] < values.Length
      modifies doublesCache
      ensures r[..] == Elements(MapOption(Entry(docId), widen))
      ensures Entry(docId) == None ==> r == emptyDoubles && unchanged(doublesCache)
      ensures Entry(docId) != None ==> r == doublesCache
      ensures unchanged(order, values, floatsCache)
    {
      var loc := order[docId];
      if loc == 0 {
        return emptyDoubles;
      }
      doublesCache[0] := widen(values[loc]);
      r := doublesCache;
    }

    /**
     * The calls the text callback receives for document `docId`: none when it
     * has no value, otherwise exactly one, with the text of its value.
     */
    function ForEachStringValueInDoc(docId: int): (calls: seq<(int, string)>)
      reads this, order, values
      requires 0 <= docId < order.Length
      requires order[docId] == 0 || 0 < order[docId] < values.Length
      ensures |calls| == |Elements(Entry(docId))|
      ensures forall i :: 0 <= i < |calls| ==>
                calls[i] == (docId, format(Elements(Entry(docId))[i]))
    {
      var loc := order[docId];
      if loc == 0 then [] else [(docId, format(values[loc]))]
    }

    /**
     * The calls the double callback receives for document `docId`: none when
     * it has no value, otherwise exactly one, with its widened value.
     */
    function ForEachDoubleValueInDoc(docId: int): (calls: seq<(int, D)>)
      reads this, order, values
      requires 0 <= docId < order.Length
      requires order[docId] == 0 || 0 < order[docId] < values.Length
      ensures |calls| == |Elements(Entry(docId))|
      ensures forall i :: 0 <= i < |calls| ==>
                calls[i] == (docId, Elements(MapOption(Entry(docId), widen))[i])
    {
      var loc := order[docId];
      if loc == 0 then [] else [(docId, widen(values[loc]))]
    }
  }
}
