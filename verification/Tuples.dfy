/** Label tuples and their NUL-joined signatures. */
module Tuples {
  import opened Values

  const NUL: char := '\0'

  /** strings.Join(vals, "\x00") */
  function Signature(vals: Tuple): string {
    if |vals| == 0 then ""
    else if |vals| == 1 then vals[0]
    else vals[0] + [NUL] + Signature(vals[1..])
  }

  predicate NulFree(vals: Tuple) {
    forall s :: s in vals ==> NUL !in s
  }

  /** The tenant, then one label per declared label column, in declared order. */
  function TupleOf(tenant: string, labels: seq<string>, row: Row): (t: Tuple)
    ensures |t| == 1 + |labels| && t[0] == tenant
    ensures forall k :: 0 <= k < |labels| ==>
              t[1 + k] == if labels[k] !in row || row[labels[k]].Null? then "" else row[labels[k]].text
  {
    [tenant] + seq(|labels|, k requires 0 <= k < |labels| => LabelOf(CellAt(row, labels[k])))
  }

  /** Splitting at the first NUL undoes joining on it. */
  lemma {:induction false} SplitAtFirstNul(a: string, b: string, x: string, y: string)
    requires NUL !in a && NUL !in b
    requires a + [NUL] + x == b + [NUL] + y
    ensures a == b && x == y
  {
    var l, r := a + [NUL] + x, b + [NUL] + y;
    assert l[|a|] == NUL && r[|b|] == NUL;
    if |a| < |b| {
      assert false;
    } else if |b| < |a| {
      assert false;
    }
    assert a == l[..|a|] && b == r[..|a|];
    assert x == l[|a| + 1..] && y == r[|a| + 1..];
  }

  /** For a fixed arity and NUL-free components the signature identifies the tuple. */
  lemma {:induction false} SignatureInjective(u: Tuple, v: Tuple)
    requires |u| == |v| && NulFree(u) && NulFree(v)
    requires Signature(u) == Signature(v)
    ensures u == v
  {
    if |u| > 1 {
      assert u[0] in u && v[0] in v;
      SplitAtFirstNul(u[0], v[0], Signature(u[1..]), Signature(v[1..]));
      SignatureInjective(u[1..], v[1..]);
      assert u == [u[0]] + u[1..] && v == [v[0]] + v[1..];
    } else if |u| == 1 {
      assert u == [u[0]] && v == [v[0]];
    }
  }

  /** Neither hypothesis can go: a NUL inside a component, or a different arity, collides. */
  lemma SignatureCollides()
    ensures var u, v := ["t", "a\0", "b"], ["t", "a", "\0b"];
            u != v && |u| == |v| && Signature(u) == Signature(v) == "t\0a\0\0b"
    ensures var u, v := ["t", "a\0b"], ["t", "a", "b"];
            u != v && Signature(u) == Signature(v)
  {
  }
}
