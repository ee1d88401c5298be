/**
  The part of parquet-go that the query layer sees, as values. What the library
  guarantees (truthful bounds, one dictionary per row group, pages that start on a
  row boundary) is stated by the predicates Truthful and Numbered.
 */
module Parquet {
  import opened Wrappers
  import opened RowNumbers

  type Bytes = seq<bv8>

  /** A column value; a null carries zero payloads, as parquet-go's accessors return. */
  datatype Value = Value(isNull: bool, int64: int, double: real, bytes: Bytes, text: string, r: nat, d: nat)

  const NULL_TEXT := "<null>"

  predicate WellFormed(v: Value) {
    && v.r <= v.d < LEVELS
    && (v.isNull ==> v.int64 == 0 && v.double == 0.0 && v.bytes == [] && v.text == NULL_TEXT)
  }

  /** Equal payload: what a dictionary entry and its occurrences share. */
  predicate SamePayload(a: Value, b: Value) {
    a.isNull == b.isNull && a.int64 == b.int64 && a.double == b.double && a.bytes == b.bytes && a.text == b.text
  }

  datatype Bounds = Bounds(min: Value, max: Value)

  datatype Page = Page(values: seq<Value>, bounds: Option<Bounds>, dictionary: Option<seq<Value>>)

  datatype RowGroup = RowGroup(pages: seq<Page>, index: Option<seq<Bounds>>)

  /** Lexicographic order of byte strings (bytes.Compare(a, b) <= 0). */
  predicate BytesAtMost(a: Bytes, b: Bytes) {
    a == [] || (b != [] && (a[0] < b[0] || (a[0] == b[0] && BytesAtMost(a[1..], b[1..]))))
  }

  predicate Within(v: Value, b: Bounds) {
    && b.min.int64 <= v.int64 <= b.max.int64
    && b.min.double <= v.double <= b.max.double
    && BytesAtMost(b.min.bytes, v.bytes) && BytesAtMost(v.bytes, b.max.bytes)
  }

  predicate BoundsHold(p: Page, b: Bounds) {
    forall v :: v in p.values && !v.isNull ==> Within(v, b)
  }

  predicate InDictionary(v: Value, dictionary: seq<Value>) {
    exists i :: 0 <= i < |dictionary| && SamePayload(dictionary[i], v)
  }

  /** Page bounds and the column index enclose the values; a dictionary covers its whole row group. */
  ghost predicate Truthful(g: RowGroup) {
    && (forall p :: p in g.pages && p.bounds.Some? ==> BoundsHold(p, p.bounds.value))
    && (g.index.Some? ==> |g.index.value| == |g.pages|)
    && (g.index.Some? ==> forall i :: 0 <= i < |g.pages| ==> BoundsHold(g.pages[i], g.index.value[i]))
    && (forall p :: p in g.pages && p.dictionary.Some? ==> Covers(p.dictionary.value, g))
  }

  ghost predicate Covers(dictionary: seq<Value>, g: RowGroup) {
    forall i :: 0 <= i < |g.pages| ==> forall v :: v in g.pages[i].values && !v.isNull ==> InDictionary(v, dictionary)
  }

  // ---------- Rows ----------

  function NumRows(vs: seq<Value>): nat {
    if vs == [] then 0 else (if vs[0].r == 0 then 1 else 0) + NumRows(vs[1..])
  }

  predicate Levelled(vs: seq<Value>) {
    forall i :: 0 <= i < |vs| ==> WellFormed(vs[i])
  }

  /** Legal levels, starting on a row boundary. */
  predicate StartsRow(vs: seq<Value>) {
    Levelled(vs) && (vs != [] ==> vs[0].r == 0)
  }

  predicate Numbered(g: RowGroup) {
    forall i :: 0 <= i < |g.pages| ==> StartsRow(g.pages[i].values)
  }

  function PageValues(ps: seq<Page>): seq<Value> {
    if ps == [] then [] else ps[0].values + PageValues(ps[1..])
  }

  function GroupValues(gs: seq<RowGroup>): seq<Value> {
    if gs == [] then [] else PageValues(gs[0].pages) + GroupValues(gs[1..])
  }
}
