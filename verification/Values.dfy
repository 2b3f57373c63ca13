/** What the components pass to each other: decoded cells, result rows, query definitions. */
module Values {

  datatype Option<+T> = None | Some(value: T)

  /** A float64. Gauge writes only copy these, so nothing is assumed about arithmetic on them. */
  datatype Number = NaN | Infinite(negative: bool) | Finite(value: real)

  /** A decoded database value, represented by what the two converters make of it:
      its label rendering (total) and its numeric reading (partial). A Go nil is Null. */
  datatype Cell = Null | Datum(text: string, number: Option<Number>)

  /** A result row: column name to cell. Reading a column the row lacks gives a Go nil. */
  type Row = map<string, Cell>

  /** Prometheus label values, in declared order. */
  type Tuple = seq<string>

  datatype Query = Query(
    name: string,
    help: string,
    labels: seq<string>,
    values: seq<string>,
    sql: string,
    intervalSeconds: int)

  function ValueSet(q: Query): set<string> {
    set v | v in q.values
  }

  function Get<K, V>(m: map<K, V>, k: K): Option<V> {
    if k in m then Some(m[k]) else None
  }

  /** Reads a counter vector: a series nobody has bumped reads 0. */
  function Count<K>(m: map<K, nat>, k: K): (n: nat)
    ensures k !in m ==> n == 0
    ensures k in m ==> n == m[k]
  {
    if k in m then m[k] else 0
  }

  function CellAt(row: Row, column: string): Cell {
    if column in row then row[column] else Null
  }

  function LabelOf(c: Cell): string {
    if c.Null? then "" else c.text
  }

  function NumberOf(c: Cell): Option<Number> {
    if c.Null? then None else c.number
  }

  /** The row has a cell in the column, and the cell reads as a number. */
  predicate Numeric(row: Row, column: string) {
    column in row && row[column].Datum? && row[column].number.Some?
  }

  /** Maps are determined by their lookups. */
  lemma EqualMaps<K(!new), V(!new)>(a: map<K, V>, b: map<K, V>)
    requires forall k: K :: Get(a, k) == Get(b, k)
    ensures a == b
  {
    forall k: K ensures k in a <==> k in b {
      assert Get(a, k) == Get(b, k);
    }
    forall k | k in a ensures a[k] == b[k] {
      assert Get(a, k) == Get(b, k);
    }
  }

  /** One particular iteration order of a Go map or set: every element once. */
  ghost predicate Enumerates<T(!new)>(order: seq<T>, s: set<T>) {
    && (forall x :: x in order <==> x in s)
    && (forall i, j :: 0 <= i < j < |order| ==> order[i] != order[j])
  }

  lemma {:induction false} EnumerationSize<T(!new)>(order: seq<T>, s: set<T>)
    requires Enumerates(order, s)
    ensures |order| == |s|
  {
    if order == [] {
      assert s == {};
    } else {
      var n := |order| - 1;
      assert order == order[..n] + [order[n]];
      EnumerationSize(order[..n], s - {order[n]});
    }
  }

  lemma {:induction false} EnumerationExists<T(!new)>(s: set<T>) returns (order: seq<T>)
    ensures Enumerates(order, s)
    decreases s
  {
    if s == {} {
      order := [];
    } else {
      var x :| x in s;
      var rest := EnumerationExists(s - {x});
      order := rest + [x];
      forall y ensures y in order <==> y in s {
        assert y in order <==> y in rest || y == x;
      }
    }
  }
}
