/**
 * Redux helpers (src/helpers/redux_helpers.ts): the registry of action types
 * already in use, generateUniqueActionType, which renames a clashing type by
 * appending `_0`, `_1`, ..., and the action creators built on it.
 */
module ReduxHelpers {
  import opened Wrappers

  /** The decimal digits of n, as a template literal prints a non-negative integer. */
  function Dec(n: nat): (r: string)
    ensures |r| >= 1
    ensures n >= 10 <==> |r| >= 2
    ensures forall i :: 0 <= i < |r| ==> '0' <= r[i] <= '9'
    decreases n
  {
    if n < 10 then [Digit(n)] else Dec(n / 10) + [Digit(n % 10)]
  }

  function Digit(d: nat): (c: char)
    requires d < 10
    ensures '0' <= c <= '9'
  {
    "0123456789"[d]
  }

  /** Different numbers print differently. */
  lemma {:induction false} DecInjective(a: nat, b: nat)
    requires Dec(a) == Dec(b)
    ensures a == b
    decreases a
  {
    if a >= 10 && b >= 10 {
      var ra, rb := Dec(a), Dec(b);
      assert ra[..|ra| - 1] == Dec(a / 10) && rb[..|rb| - 1] == Dec(b / 10);
      assert ra[|ra| - 1] == Digit(a % 10) && rb[|rb| - 1] == Digit(b % 10);
      DecInjective(a / 10, b / 10);
      DigitInjective(a % 10, b % 10);
    } else if a < 10 && b < 10 {
      DigitInjective(a, b);
    }
  }

  lemma DigitInjective(a: nat, b: nat)
    requires a < 10 && b < 10 && Digit(a) == Digit(b)
    ensures a == b
  {
  }

  /** `s` is one of the first `n` names tried for `t`. */
  ghost predicate TriedBefore(t: string, s: string, n: nat) {
    exists j :: 0 <= j < n && s == Candidate(t, j)
  }

  /** The k-th name tried for `type`: the type itself, then type_0, type_1, ... */
  function Candidate(t: string, k: nat): (r: string)
    ensures k == 0 <==> r == t
  {
    if k == 0 then t else t + "_" + Dec(k - 1)
  }

  /** No name is tried twice, so the search always reaches a free one. */
  lemma CandidateInjective(t: string, i: nat, j: nat)
    requires Candidate(t, i) == Candidate(t, j)
    ensures i == j
  {
    if i > 0 && j > 0 {
      var ci, cj := Candidate(t, i), Candidate(t, j);
      assert ci[|t| + 1..] == Dec(i - 1) && cj[|t| + 1..] == Dec(j - 1);
      DecInjective(i - 1, j - 1);
    }
  }

  datatype Action<P> = Action(actionType: string, payload: P)

  /**
   * An action creator: calling it builds an action of its unique type, with
   * the given payload or `empty` (the object `{}`) when called with none;
   * `matches` recognises actions of exactly that type.
   */
  datatype ActionCreator = ActionCreator(uniqueType: string) {
    function Create<P>(payload: Option<P>, empty: P): (a: Action<P>)
      ensures a.actionType == uniqueType
      ensures a.payload == if payload.Some? then payload.value else empty
    {
      Action(uniqueType, payload.GetOr(empty))
    }

    function Matches<P>(a: Action<P>): (r: bool)
      ensures r <==> a.actionType == uniqueType
    {
      a.actionType == uniqueType
    }
  }

  /** Every action a creator builds is recognised by it, and by no creator of another type. */
  lemma CreatorsRecogniseOwnActions<P>(c: ActionCreator, d: ActionCreator, payload: Option<P>, empty: P)
    ensures c.Matches(c.Create(payload, empty))
    ensures d.Matches(c.Create(payload, empty)) <==> d.uniqueType == c.uniqueType
  {
  }

  /** The module-level usedActionTypes table: the action types handed out so far. */
  class ActionTypeRegistry {
    var used: set<string>

    constructor()
      ensures used == {}
    {
      used := {};
    }

    /**
     * generateUniqueActionType(type): the first of type, type_0, type_1, ...
     * not yet used, which is then recorded as used.
     */
    method GenerateUniqueActionType(t: string) returns (uniqueType: string)
      modifies this
      ensures uniqueType !in old(used)
      ensures used == old(used) + {uniqueType}
      ensures exists k: nat :: uniqueType == Candidate(t, k) && forall j: nat :: j < k ==> Candidate(t, j) in old(used)
      ensures t !in old(used) ==> uniqueType == t
    {
      uniqueType := t;
      var suffix: nat := 0;
      ghost var tried: set<string> := {};
      while uniqueType in used
        invariant used == old(used)
        invariant uniqueType == Candidate(t, suffix)
        invariant tried <= used && |tried| == suffix
        invariant forall j :: 0 <= j < suffix ==> Candidate(t, j) in tried
        invariant forall s :: s in tried ==> TriedBefore(t, s, suffix)
        decreases |used| - |tried|
      {
        if uniqueType in tried {
          assert TriedBefore(t, uniqueType, suffix);
          var j :| 0 <= j < suffix && uniqueType == Candidate(t, j);
          CandidateInjective(t, j, suffix);
        }
        assert TriedBefore(t, uniqueType, suffix + 1);
        tried := tried + {uniqueType};
        assert |tried| <= |used| by {
          SubsetCardinality(tried, used);
        }
        uniqueType := t + "_" + Dec(suffix);
        suffix := suffix + 1;
      }
      assert uniqueType == Candidate(t, suffix) && forall j: nat :: j < suffix ==> Candidate(t, j) in old(used);
      used := used + {uniqueType};
    }

    /** createActionCreator(type): a creator of the type generateUniqueActionType hands out. */
    method CreateActionCreator(t: string) returns (creator: ActionCreator)
      modifies this
      ensures creator.uniqueType !in old(used)
      ensures used == old(used) + {creator.uniqueType}
      ensures exists k: nat :: creator.uniqueType == Candidate(t, k) && forall j: nat :: j < k ==> Candidate(t, j) in old(used)
      ensures t !in old(used) ==> creator.uniqueType == t
    {
      var uniqueType := GenerateUniqueActionType(t);
      creator := ActionCreator(uniqueType);
    }
  }

  lemma SubsetCardinality(a: set<string>, b: set<string>)
    requires a <= b
    ensures |a| <= |b|
  {
    assert b == a + (b - a);
  }
}
