/** Whole runs of a step system: a finite list of events, each of which is possible when it happens. */
module Runs {

  datatype System<!S, !E> = System(enabled: (S, E) -> bool, apply: (S, E) -> S)

  ghost predicate Valid<S, E>(sys: System<S, E>, s: S, es: seq<E>)
    decreases |es|
  {
    es == [] || (sys.enabled(s, es[0]) && Valid(sys, sys.apply(s, es[0]), es[1..]))
  }

  ghost function After<S, E>(sys: System<S, E>, s: S, es: seq<E>): S
    decreases |es|
  {
    if es == [] then s else After(sys, sys.apply(s, es[0]), es[1..])
  }

  lemma {:induction false} Concat<S, E>(sys: System<S, E>, s: S, es: seq<E>, fs: seq<E>)
    requires Valid(sys, s, es) && Valid(sys, After(sys, s, es), fs)
    ensures Valid(sys, s, es + fs) && After(sys, s, es + fs) == After(sys, After(sys, s, es), fs)
    decreases |es|
  {
    if es == [] {
      assert es + fs == fs;
    } else {
      Concat(sys, sys.apply(s, es[0]), es[1..], fs);
      assert (es + fs)[1..] == es[1..] + fs;
    }
  }

  lemma Extend<S, E>(sys: System<S, E>, s: S, es: seq<E>, e: E)
    requires Valid(sys, s, es) && sys.enabled(After(sys, s, es), e)
    ensures Valid(sys, s, es + [e]) && After(sys, s, es + [e]) == sys.apply(After(sys, s, es), e)
  {
    var mid := After(sys, s, es);
    assert [e][1..] == [];
    assert Valid(sys, sys.apply(mid, e), []) && After(sys, sys.apply(mid, e), []) == sys.apply(mid, e);
    assert Valid(sys, mid, [e]) && After(sys, mid, [e]) == sys.apply(mid, e);
    Concat(sys, s, es, [e]);
  }

  /** An invariant that every admitted event keeps holds after every run of such events. */
  lemma {:induction false} Invariance<S(!new), E(!new)>(sys: System<S, E>, s: S, es: seq<E>,
                                                        inv: S -> bool, admitted: E -> bool)
    requires Valid(sys, s, es) && inv(s)
    requires forall i :: 0 <= i < |es| ==> admitted(es[i])
    requires forall s, e :: inv(s) && admitted(e) && sys.enabled(s, e) ==> inv(sys.apply(s, e))
    ensures inv(After(sys, s, es))
    decreases |es|
  {
    if es != [] {
      assert admitted(es[0]);
      assert inv(sys.apply(s, es[0]));
      forall i | 0 <= i < |es[1..]| ensures admitted(es[1..][i]) {
        assert es[1..][i] == es[i + 1];
      }
      Invariance(sys, sys.apply(s, es[0]), es[1..], inv, admitted);
    }
  }

  /** Every event of a run was possible in some state. */
  lemma {:induction false} WasEnabled<S, E>(sys: System<S, E>, s: S, es: seq<E>, i: nat) returns (at: S)
    requires Valid(sys, s, es) && i < |es|
    ensures sys.enabled(at, es[i])
    decreases |es|
  {
    if i == 0 {
      at := s;
    } else {
      at := WasEnabled(sys, sys.apply(s, es[0]), es[1..], i - 1);
    }
  }
}
