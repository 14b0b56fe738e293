/** The order of emission: a depth-first search over the call graph that puts every SEP
    after the SEPs it calls, and refuses a program whenever a SEP can reach itself. */
module CallOrder {
  import opened Ast
  import opened Semantics
  import opened Firmware
  import opened Simulation

  /** Each SEP of the walk calls the next one. */
  ghost predicate IsWalk(logics: Logics, walk: seq<string>) {
    && (forall i | 0 <= i < |walk| :: walk[i] in logics)
    && (forall i | 0 <= i < |walk| - 1 :: walk[i + 1] in Callees(logics, walk[i]))
  }

  ghost predicate IsCycle(logics: Logics, walk: seq<string>) {
    IsWalk(logics, walk) && |walk| > 1 && walk[0] == walk[|walk| - 1]
  }

  ghost predicate IsRecursive(logics: Logics) {
    exists walk :: IsCycle(logics, walk)
  }

  /** Where callees come first, a walk only goes down. */
  lemma {:induction false} WalksGoDown(logics: Logics, order: seq<string>, walk: seq<string>, first: nat)
    returns (last: nat)
    requires CalleesFirst(logics, order) && IsWalk(logics, walk) && walk != []
    requires first < |order| && order[first] == walk[0]
    ensures last + |walk| <= first + 1 && order[last] == walk[|walk| - 1]
    decreases |walk|
  {
    if |walk| == 1 {
      last := first;
    } else {
      assert walk[0 + 1] in Callees(logics, walk[0]);
      assert walk[1] in order[..first];
      var next :| 0 <= next < first && order[next] == walk[1];
      forall i | 0 <= i < |walk[1..]| - 1
        ensures walk[1..][i + 1] in Callees(logics, walk[1..][i])
      {
        assert walk[i + 1 + 1] in Callees(logics, walk[i + 1]);
      }
      last := WalksGoDown(logics, order, walk[1..], next);
    }
  }

  /** An order with callees first exists only without recursion. */
  lemma OrderedIsNotRecursive(logics: Logics, order: seq<string>)
    requires CalleesFirst(logics, order) && logics.Keys <= set n | n in order
    ensures !IsRecursive(logics)
  {
    if walk :| IsCycle(logics, walk) {
      assert walk[0] in order;
      var first :| 0 <= first < |order| && order[first] == walk[0];
      var last := WalksGoDown(logics, order, walk, first);
      assert false;
    }
  }

  class Sorter {
    const logics: Logics
    var ordered: seq<string>
    var visiting: set<string>
    var visited: set<string>

    ghost predicate Valid()
      reads this
    {
      && CalleesFirst(logics, ordered)
      && visited == (set n | n in ordered)
      && visited !! visiting
      && visiting <= logics.Keys
    }

    constructor (logics: Logics)
      ensures Valid() && this.logics == logics && ordered == [] && visiting == {}
    {
      this.logics := logics;
      ordered, visiting, visited := [], {}, {};
    }

    /** Appends a SEP after everything it calls. `path` is the walk that led here. */
    method Visit(name: string, ghost path: seq<string>) returns (ok: bool)
      requires Valid() && name in logics
      requires IsWalk(logics, path + [name]) && visiting == set n | n in path
      modifies this
      ensures !ok ==> IsRecursive(logics)
      ensures ok ==> Valid() && visiting == old(visiting) && name in visited
      ensures ok ==> old(ordered) <= ordered && old(visited) <= visited
      decreases logics.Keys - visited - visiting
    {
      if name in visited {
        return true;
      }
      if name in visiting {
        ghost var i :| 0 <= i < |path| && path[i] == name;
        ghost var cycle := (path + [name])[i..];
        forall k | 0 <= k < |cycle| - 1
          ensures cycle[k + 1] in Callees(logics, cycle[k])
        {
          assert (path + [name])[i + k + 1] in Callees(logics, (path + [name])[i + k]);
        }
        assert IsCycle(logics, cycle);
        return false;
      }
      visiting := visiting + {name};
      ghost var before := ordered;
      ghost var extended := path + [name];
      assert visiting == set n | n in extended;
      var callees := Callees(logics, name);
      var remaining := callees;
      while remaining != {}
        invariant Valid() && visiting == old(visiting) + {name} && before <= ordered
        invariant remaining <= callees && callees - remaining <= visited
        invariant old(visited) <= visited
        decreases remaining
      {
        var callee :| callee in remaining;
        forall k | 0 <= k < |extended + [callee]| - 1
          ensures (extended + [callee])[k + 1] in Callees(logics, (extended + [callee])[k])
        {
          if k < |path| {
            assert extended[k + 1] in Callees(logics, extended[k]);
          }
        }
        var done := Visit(callee, extended);
        if !done {
          return false;
        }
        assert before <= ordered;
        remaining := remaining - {callee};
      }
      visiting := visiting - {name};
      visited := visited + {name};
      AppendKeepsOrder(logics, ordered, name);
      ordered := ordered + [name];
      ok := true;
    }
  }

  lemma AppendKeepsOrder(logics: Logics, order: seq<string>, name: string)
    requires CalleesFirst(logics, order) && name in logics && name !in order
    requires Callees(logics, name) <= set n | n in order
    ensures CalleesFirst(logics, order + [name])
  {
    var longer := order + [name];
    forall i | 0 <= i < |longer|
      ensures Callees(logics, longer[i]) <= set n | n in longer[..i]
    {
      if i < |order| {
        assert longer[..i] == order[..i];
      } else {
        assert longer[..i] == order;
      }
    }
  }

  /** Every SEP exactly once with its callees before it; refused exactly when some SEP is recursive.
      `names` are all SEPs, in the order the search starts from them. */
  method OrderedFunctions(logics: Logics, names: seq<string>) returns (r: Option<seq<string>>)
    requires logics.Keys == set n | n in names
    ensures r.None? <==> IsRecursive(logics)
    ensures r.Some? ==> CalleesFirst(logics, r.value) && logics.Keys == set n | n in r.value
  {
    var sorter := new Sorter(logics);
    for i := 0 to |names|
      invariant sorter.logics == logics && sorter.Valid() && sorter.visiting == {}
      invariant forall j | 0 <= j < i :: names[j] in sorter.visited
    {
      assert names[i] in logics;
      var done := sorter.Visit(names[i], []);
      if !done {
        return None;
      }
      assert (set n | n in sorter.ordered) == sorter.visited;
    }
    assert logics.Keys <= sorter.visited;
    OrderedIsNotRecursive(logics, sorter.ordered);
    return Some(sorter.ordered);
  }
}
