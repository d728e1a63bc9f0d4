/**
 * Values shared by the experiment store, the feedback store and the trace
 * logger: optional values, results of operations that can fail, the JSON-like
 * values that the stores keep as free-form metadata, and an order-preserving
 * filter (Python's `[x for x in xs if p(x)]`).
 */
module Common {

  datatype Option<+T> = None | Some(value: T)

  /** Success carries the value an operation returns; Failure the exception it raises. */
  datatype Result<+T, +E> = Success(value: T) | Failure(error: E)

  /** A JSON-serialisable value: what `Dict[str, Any]` fields hold in the stores. */
  datatype Json =
    | JNull
    | JBool(b: bool)
    | JNumber(n: real)
    | JString(s: string)
    | JArray(items: seq<Json>)
    | JObject(fields: map<string, Json>)

  type Metadata = map<string, Json>

  /** Python's `metadata or {}`: an absent mapping becomes the empty one. */
  function OrEmpty(metadata: Option<Metadata>): (m: Metadata)
    ensures metadata.Some? ==> m == metadata.value
    ensures metadata.None? ==> m == map[]
  {
    if metadata.Some? then metadata.value else map[]
  }

  /** No element occurs twice: the keys of a dictionary listed in insertion order. */
  predicate Distinct<T(==)>(s: seq<T>)
  {
    forall i, j | 0 <= i < j < |s| :: s[i] != s[j]
  }

  /** A non-empty sequence is its prefix followed by its last element. */
  lemma PrefixAndLast<T>(s: seq<T>)
    requires s != []
    ensures s[..|s| - 1] + [s[|s| - 1]] == s
  {
  }

  lemma AppendAssociative<T>(x: seq<T>, y: seq<T>, z: seq<T>)
    ensures (x + y) + z == x + (y + z)
  {
  }

  /** The elements of `s` that satisfy `keep`, in their original order. */
  function Filter<T>(s: seq<T>, keep: T -> bool): (r: seq<T>)
    ensures |r| <= |s|
    ensures forall x <- r :: x in s && keep(x)
    ensures forall x <- s :: keep(x) ==> x in r
  {
    if s == [] then []
    else Filter(s[..|s| - 1], keep) + (if keep(s[|s| - 1]) then [s[|s| - 1]] else [])
  }

  /** Filtering distributes over concatenation: the filter keeps the relative order of what it keeps. */
  lemma {:induction false} FilterConcat<T>(a: seq<T>, b: seq<T>, keep: T -> bool)
    ensures Filter(a + b, keep) == Filter(a, keep) + Filter(b, keep)
    decreases |b|
  {
    if b == [] {
      assert a + b == a;
    } else {
      var b' := b[..|b| - 1];
      assert (a + b)[..|a + b| - 1] == a + b';
      FilterConcat(a, b', keep);
    }
  }

  /** Filtering a single element keeps it exactly when it satisfies the predicate. */
  lemma FilterSingleton<T>(x: T, keep: T -> bool)
    ensures Filter([x], keep) == if keep(x) then [x] else []
  {
    assert [x][..0] == [];
  }
}
