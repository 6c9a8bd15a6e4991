/** Building runs of the pool step by step. */
module PoolRuns {
  import opened ThreadPool

  lemma {:induction false} Chain(s: State, first: seq<Action>, second: seq<Action>)
    requires CanRun(s, first) && CanRun(After(s, first), second)
    ensures CanRun(s, first + second) && After(s, first + second) == After(After(s, first), second)
    decreases |first|
  {
    hide Apply, Enabled;
    if first == [] {
      assert first + second == second;
    } else {
      assert (first + second)[0] == first[0] && (first + second)[1..] == first[1..] + second;
      Chain(Apply(s, first[0]), first[1..], second);
    }
  }

  ghost predicate Reaches(s: State, t: State) {
    exists run :: CanRun(s, run) && After(s, run) == t
  }

  lemma Go(s: State, t: State, a: Action) returns (t': State)
    requires Reaches(s, t) && Enabled(t, a)
    ensures t' == Apply(t, a) && Reaches(s, t')
  {
    var run :| CanRun(s, run) && After(s, run) == t;
    t' := Apply(t, a);
    assert [a][1..] == [];
    Chain(s, run, [a]);
  }

  lemma Starts(s: State)
    ensures Reaches(s, s)
  {
    assert CanRun(s, []) && After(s, []) == s;
  }

  function FreshPool(nWorkers: nat, nWaiters: nat): State {
    State(seq(nWorkers, i => LoopTest), seq(nWaiters, i => Outside), NotCalled, Free, [], 0, true, nWorkers, 0, 0,
          0, [], multiset{}, [], 0)
  }
}
