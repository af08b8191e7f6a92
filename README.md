# Single-valued float field data

A model of `SingleValueFloatFieldData`, the per-segment accessor that a search
index uses to read a single-valued float field. Each document has an ordinal
in the `order` array. Ordinal 0 means the document has no value. Any other
ordinal `k` names slot `k` of the `values` dictionary, where each distinct value
is stored once. The accessor answers five kinds of reads:

- a presence check;
- an unchecked scalar read;
- array-shaped reads of floats and of widened doubles;
- two per-document callbacks, one receiving text and one receiving doubles.

The array-shaped reads return a shared empty array for a document without a
value. For a document with a value they overwrite element 0 of the calling
thread's one-element scratch buffer and return that buffer.

The model is one Dafny module, `FloatFieldData`
(`single_value_float_field_data.dfy`):

- `Option`, `Resolve` and `Decode` give the abstract view: the column of
  optional values that the ordinal array and the dictionary encode.
- The class `SingleValueFloatFieldData<F, D>` holds `order`, `values`, the two
  shared empty arrays and one thread's two scratch buffers, all as `const`
  array references.
- Its reads are specified against `Entry(docId)`, the document's entry in that
  column. The scalar reads and the callbacks are functions. `Values` and
  `DoubleValues` are methods that write the scratch buffers in place.

The float and double types are type parameters. The accessor only stores and
copies them. Float-to-double widening and the canonical text of a float are the
constructor-supplied functions `widen` and `format`.

A callback is modelled by the sequence of `(docId, payload)` calls it would
receive. That sequence is empty or has one element.

`segment_example.dfy` is a caller. It builds the four-document segment
`order = [0, 1, 2, 1]`, `values = [0.0, 3.5, 7.25]` and derives every read of
it from the contracts alone. It also shows that a returned buffer is
overwritten by the next `Values` call.

## Model

| member | source | states |
|---|---|---|
| `FloatFieldData.Decode` | modules/elasticsearch/src/main/java/org/elasticsearch/index/field/floats/SingleValueFloatFieldData.java:42-43 | the column encoded by `order` and `values` has one entry per document; an entry is absent exactly where the ordinal is 0; otherwise it is `values[order[d]]`, read from a non-sentinel dictionary slot |
| `FloatFieldData.SingleValueFloatFieldData.EntryInColumn` | modules/elasticsearch/src/main/java/org/elasticsearch/index/field/floats/SingleValueFloatFieldData.java:42-43 | when every ordinal is 0 or a slot of the dictionary, each document's `Entry` is its entry in the decoded column; `HasValue` is true exactly when that entry is present, `Value` returns it when it is present, and the text callback fires as many times as the entry has values |
| `FloatFieldData.SingleValueFloatFieldData.constructor` | modules/elasticsearch/src/main/java/org/elasticsearch/index/field/floats/SingleValueFloatFieldData.java:30-48 | stores `order` and `values` unchecked and unchanged; allocates the two fresh one-element scratch buffers, which alias none of the other arrays |
| `FloatFieldData.SingleValueFloatFieldData.MultiValued` | modules/elasticsearch/src/main/java/org/elasticsearch/index/field/floats/SingleValueFloatFieldData.java:50-52 | always false, in every state; matching that, each of the two callbacks fires at most once for every document |
| `FloatFieldData.SingleValueFloatFieldData.HasValue` | modules/elasticsearch/src/main/java/org/elasticsearch/index/field/floats/SingleValueFloatFieldData.java:54-56 | true exactly when the document's ordinal is not the sentinel 0, which is exactly when the document's entry is present |
| `FloatFieldData.SingleValueFloatFieldData.ForEachStringValueInDoc` | modules/elasticsearch/src/main/java/org/elasticsearch/index/field/floats/SingleValueFloatFieldData.java:58-64 | the text callback is invoked zero times for a document without a value; otherwise it is invoked exactly once, with `(docId, format(value))` |
| `FloatFieldData.SingleValueFloatFieldData.ForEachDoubleValueInDoc` | modules/elasticsearch/src/main/java/org/elasticsearch/index/field/floats/SingleValueFloatFieldData.java:66-72 | the double callback is invoked zero times for a document without a value; otherwise it is invoked exactly once, with `(docId, widen(value))` |
| `FloatFieldData.SingleValueFloatFieldData.DoubleValues` | modules/elasticsearch/src/main/java/org/elasticsearch/index/field/floats/SingleValueFloatFieldData.java:74-82 | the returned array holds the document's widened values; with no value it is the shared empty double array and nothing changes; otherwise it is the reused double buffer, whose one element is now the widened value; `order`, `values` and the float buffer are unchanged |
| `FloatFieldData.SingleValueFloatFieldData.Value` | modules/elasticsearch/src/main/java/org/elasticsearch/index/field/floats/SingleValueFloatFieldData.java:84-86 | for a document with a value, returns that value; for one without a value, returns the sentinel slot `values[0]` unchecked |
| `FloatFieldData.SingleValueFloatFieldData.Values` | modules/elasticsearch/src/main/java/org/elasticsearch/index/field/floats/SingleValueFloatFieldData.java:88-96 | the returned array holds the document's values; with no value it is the shared empty float array and nothing changes; otherwise it is the reused float buffer, the same object on every call, whose one element is now the value; `order`, `values` and the double buffer are unchanged |

Well-formedness is not a class invariant. The constructor checks nothing, so
one out-of-range ordinal fails only the reads of its own document. Each read
requires `0 <= docId < order.Length`. Beyond that, each read asks only for the
dictionary slots it actually indexes:

- `HasValue` reads only `order` and needs nothing more.
- `Values`, `DoubleValues` and the two callbacks return before reading
  `values` when the ordinal is 0. They require only that the ordinal is 0 or
  a slot `0 < order[docId] < values.Length`, so an empty dictionary is fine
  for a document without a value.
- `Value` always reads `values[order[docId]]`, even the sentinel slot 0, so it
  requires `0 <= order[docId] < values.Length`.

## Left out

- Thread-local storage. The two `ThreadLocal` caches are modelled as one
  thread's buffers: `const` one-element arrays owned by the object. Isolation
  between threads is concurrency and is not modelled.
- Lazy allocation. Each thread's buffers are created on its first use. The
  model allocates them in the constructor. Their initial content (Java's 0.0)
  is not stated.
- IEEE float-to-double widening and the exact output of `Float.toString` are
  floating point. They stay abstract as `widen` and `format`. No property of
  them, such as injectivity of widening, is assumed.
- The `FloatFieldData` superclass, the field name, `FieldDataOptions` and
  `freqs` are not part of this model. The constructor keeps only what the
  reads use.
- `EMPTY_FLOAT_ARRAY` and `DoubleFieldData.EMPTY_DOUBLE_ARRAY` are static
  constants of classes that are not part of this model. They are constructor
  arguments that must have length zero.
- Reading `order` or `values` at an index out of range makes Java throw
  `ArrayIndexOutOfBoundsException`. The model turns exactly those indexings
  into preconditions, and no others.
- Callbacks are external code. Each callback is modelled by the sequence of
  calls it receives, not by running it.
- How `order` and `values` are built and cached by the loader is not part of
  this model.
