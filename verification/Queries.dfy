/** Composing the built-in and the operator's queries. */
module Queries {
  import opened Values
  import opened Cadence
  import opened Sorting

  function NameOf(q: Query): string {
    q.name
  }

  // ----- merging -----

  /** The last definition of a name. */
  function LastDefinition(defs: seq<Query>, name: string): Option<Query> {
    if defs == [] then None
    else if defs[|defs| - 1].name == name then Some(defs[|defs| - 1])
    else LastDefinition(defs[..|defs| - 1], name)
  }

  lemma LastDefinitionNext(defs: seq<Query>, m: nat, name: string)
    requires m < |defs|
    ensures LastDefinition(defs[..m + 1], name) ==
              if defs[m].name == name then Some(defs[m]) else LastDefinition(defs[..m], name)
  {
    assert defs[..m + 1][..m] == defs[..m];
  }

  predicate Disabled(disable: map<string, bool>, name: string) {
    name in disable && disable[name]
  }

  /** Sorted by name, and holding, for each name that is not disabled, exactly its last definition. */
  ghost predicate IsMerge(out: seq<Query>, defs: seq<Query>, disable: map<string, bool>) {
    && StrictlySorted(out, NameOf)
    && forall q :: q in out <==> LastDefinition(defs, q.name) == Some(q) && !Disabled(disable, q.name)
  }

  /** One definition after another into the table; a later one replaces an earlier one of its name. */
  method Tabulate(byName: map<string, Query>, qs: seq<Query>, ghost earlier: seq<Query>)
    returns (table: map<string, Query>)
    requires forall name :: Get(byName, name) == LastDefinition(earlier, name)
    ensures forall name :: Get(table, name) == LastDefinition(earlier + qs, name)
  {
    table := byName;
    ghost var defs := earlier + qs;
    assert defs[..|earlier|] == earlier;
    for i := 0 to |qs|
      invariant forall name :: Get(table, name) == LastDefinition(defs[..|earlier| + i], name)
    {
      ghost var before, m := table, |earlier| + i;
      table := table[qs[i].name := qs[i]];
      forall name ensures Get(table, name) == LastDefinition(defs[..m + 1], name) {
        LastDefinitionNext(defs, m, name);
        assert Get(before, name) == LastDefinition(defs[..m], name);
      }
    }
    assert defs[..|earlier| + |qs|] == defs;
  }

  method Merge(builtins: seq<Query>, user: seq<Query>, disable: map<string, bool>) returns (out: seq<Query>)
    ensures IsMerge(out, builtins + user, disable)
    ensures forall q :: q in out ==> !(q.name in disable && disable[q.name])
    ensures forall name :: !(name in disable && disable[name]) && LastDefinition(builtins + user, name).Some? ==>
              LastDefinition(builtins + user, name).value in out
  {
    var byName := Tabulate(map[], builtins, []);
    assert [] + builtins == builtins;
    byName := Tabulate(byName, user, builtins);
    ghost var defs := builtins + user;
    forall name | name in byName ensures byName[name].name == name {
      assert Get(byName, name) == LastDefinition(defs, name);
      LastDefinitionNamed(defs, name);
    }
    out := [];
    var remaining := byName.Keys;
    while remaining != {}
      invariant remaining <= byName.Keys
      invariant DistinctNames(out)
      invariant forall q :: q in out <==>
                  q.name in byName && q.name !in remaining && byName[q.name] == q && !Disabled(disable, q.name)
    {
      var name :| name in remaining;
      ghost var before := out;
      remaining := remaining - {name};
      if !Disabled(disable, name) {
        forall i | 0 <= i < |out| ensures out[i].name != name {
          assert out[i] in out;
        }
        out := out + [byName[name]];
      }
      assert forall q :: q in out <==> q in before || (!Disabled(disable, name) && q == byName[name]);
      assert byName[name].name == name;
    }
    SortSorts(out, NameOf);
    out := Sort(out, NameOf);
    forall q ensures q in out <==> LastDefinition(defs, q.name) == Some(q) && !Disabled(disable, q.name) {
      assert Get(byName, q.name) == LastDefinition(defs, q.name);
    }
    forall name ensures name in disable && disable[name] ==> forall q :: q in out ==> q.name != name
               ensures !(name in disable && disable[name]) && LastDefinition(defs, name).Some? ==>
                         LastDefinition(defs, name).value in out {
      MergeHolds(out, defs, disable, name);
    }
  }

  lemma {:induction false} LastDefinitionNamed(defs: seq<Query>, name: string)
    ensures LastDefinition(defs, name).Some? ==> LastDefinition(defs, name).value.name == name
  {
    if defs != [] {
      LastDefinitionNamed(defs[..|defs| - 1], name);
    }
  }

  /** What a merge holds, in terms of the raw disable map: no disabled name, and the last definition of
      every other name that has one. */
  lemma MergeHolds(out: seq<Query>, defs: seq<Query>, disable: map<string, bool>, name: string)
    requires IsMerge(out, defs, disable)
    ensures name in disable && disable[name] ==> forall q :: q in out ==> q.name != name
    ensures !(name in disable && disable[name]) && LastDefinition(defs, name).Some? ==>
              LastDefinition(defs, name).value in out
  {
    LastDefinitionNamed(defs, name);
  }

  /** The result is the same for every map iteration order, and its names are distinct. */
  lemma MergeDetermined(a: seq<Query>, b: seq<Query>, defs: seq<Query>, disable: map<string, bool>)
    requires IsMerge(a, defs, disable) && IsMerge(b, defs, disable)
    ensures a == b && DistinctNames(a)
  {
    SortedDetermined(a, b, NameOf);
    SortedDistinct(a, NameOf);
  }

  lemma {:induction false} LastDefinitionAppend(a: seq<Query>, b: seq<Query>, name: string)
    ensures LastDefinition(a + b, name) ==
              if LastDefinition(b, name).Some? then LastDefinition(b, name) else LastDefinition(a, name)
  {
    if b == [] {
      assert a + b == a;
    } else {
      assert (a + b)[..|a + b| - 1] == a + b[..|b| - 1];
      LastDefinitionAppend(a, b[..|b| - 1], name);
    }
  }

  lemma {:induction false} LastDefinitionAmongDistinct(qs: seq<Query>, q: Query)
    requires DistinctNames(qs)
    ensures LastDefinition(qs, q.name) == Some(q) <==> q in qs
  {
    if qs != [] {
      var n := |qs| - 1;
      LastDefinitionAmongDistinct(qs[..n], q);
      assert qs == qs[..n] + [qs[n]];
      if q in qs[..n] {
        var i :| 0 <= i < n && qs[i] == q;
        assert qs[i].name != qs[n].name;
      }
    }
  }

  /** A merge with nothing disabled gives every name the definition it had. */
  lemma MergeKeepsDefinitions(out: seq<Query>, defs: seq<Query>, name: string)
    requires IsMerge(out, defs, map[])
    ensures LastDefinition(out, name) == LastDefinition(defs, name)
  {
    SortedDistinct(out, NameOf);
    LastDefinitionNamed(defs, name);
    LastDefinitionNamed(out, name);
    if LastDefinition(defs, name).Some? {
      LastDefinitionAmongDistinct(out, LastDefinition(defs, name).value);
    } else if LastDefinition(out, name).Some? {
      LastDefinitionAmongDistinct(out, LastDefinition(out, name).value);
    }
  }

  /** Merging in two rounds is merging once: overrides compose and disabling comes last. */
  lemma MergeComposes(base: seq<Query>, first: seq<Query>, second: seq<Query>, disable: map<string, bool>,
                      once: seq<Query>, twice: seq<Query>)
    requires IsMerge(once, base + first, map[])
    requires IsMerge(twice, once + second, disable)
    ensures IsMerge(twice, base + (first + second), disable)
  {
    assert (base + first) + second == base + (first + second);
    forall name: string
      ensures LastDefinition(once + second, name) == LastDefinition(base + (first + second), name)
    {
      LastDefinitionAppend(once, second, name);
      LastDefinitionAppend(base + first, second, name);
      MergeKeepsDefinitions(once, base + first, name);
    }
  }
}
