/**
 * The structure of the scene as the selection code sees it: a finite map from
 * each node's guid to its optional parent guid. The selection code calls
 * `getNode` on the SceneGraph and `hasDescendant` and `descendants` on the
 * node it returns; src/fullscreen/scene.ts defines neither `getNode` nor that
 * node class. Here a lookup is membership in the map, and the two queries are
 * the closure of the child relation.
 */
module SceneTree {
  import opened Wrappers

  type Guid = string

  type ParentMap = map<Guid, Option<Guid>>

  /** scene.getNode(g) != null */
  predicate Resolves(pm: ParentMap, g: Guid) {
    g in pm
  }

  /** The k-th ancestor of g (g itself when k = 0), or None once the chain of parents leaves the scene. */
  function Up(pm: ParentMap, g: Guid, k: nat): Option<Guid>
    decreases k
  {
    if k == 0 then Some(g)
    else if g in pm && pm[g].Some? then Up(pm, pm[g].value, k - 1)
    else None
  }

  /**
   * No node is its own ancestor: every chain of parents leaves the scene
   * within |pm| + 1 steps (a chain that stays inside |pm| nodes for longer
   * must revisit one, which is a cycle).
   */
  ghost predicate Acyclic(pm: ParentMap) {
    forall g :: g in pm ==> Up(pm, g, |pm| + 1).None?
  }

  /** `a` lies strictly above `d` on d's chain of parents. */
  predicate IsAncestor(pm: ParentMap, a: Guid, d: Guid) {
    exists k :: 1 <= k <= |pm| && Up(pm, d, k) == Some(a)
  }

  /** node(a).hasDescendant(d): the node `a` resolves and `d` lies below it. */
  predicate HasDescendant(pm: ParentMap, a: Guid, d: Guid) {
    a in pm && IsAncestor(pm, a, d)
  }

  /** node(a).descendants(): every node below `a`, not `a` itself. */
  function Descendants(pm: ParentMap, a: Guid): (r: set<Guid>)
    ensures forall d :: d in r <==> d in pm && HasDescendant(pm, a, d)
  {
    set d | d in pm && HasDescendant(pm, a, d)
  }

  lemma {:induction false} UpCompose(pm: ParentMap, g: Guid, b: Guid, i: nat, j: nat)
    requires Up(pm, g, i) == Some(b)
    ensures Up(pm, g, i + j) == Up(pm, b, j)
    decreases i
  {
    if i > 0 {
      UpCompose(pm, pm[g].value, b, i - 1, j);
    }
  }

  lemma {:induction false} UpNonePersists(pm: ParentMap, g: Guid, i: nat, j: nat)
    requires Up(pm, g, i).None? && i <= j
    ensures Up(pm, g, j).None?
    decreases i
  {
    if g in pm && pm[g].Some? {
      UpNonePersists(pm, pm[g].value, i - 1, j - 1);
    }
  }

  /** In an acyclic scene every chain of parents is at most |pm| steps long. */
  lemma UpBounded(pm: ParentMap, g: Guid, k: nat)
    requires Acyclic(pm) && Up(pm, g, k).Some?
    ensures k <= |pm|
  {
    if k > |pm| {
      assert g in pm;
      UpNonePersists(pm, g, |pm| + 1, k);
    }
  }

  lemma {:induction false} UpPeriodic(pm: ParentMap, g: Guid, k: nat, n: nat)
    requires Up(pm, g, k) == Some(g)
    ensures Up(pm, g, n * k) == Some(g)
  {
    if n > 0 {
      UpPeriodic(pm, g, k, n - 1);
      UpCompose(pm, g, g, (n - 1) * k, k);
      assert (n - 1) * k + k == n * k;
    }
  }

  /** The ancestor relation is transitive. */
  lemma AncestorTransitive(pm: ParentMap, a: Guid, b: Guid, c: Guid)
    requires Acyclic(pm) && IsAncestor(pm, a, b) && IsAncestor(pm, b, c)
    ensures IsAncestor(pm, a, c)
  {
    var i :| 1 <= i <= |pm| && Up(pm, c, i) == Some(b);
    var j :| 1 <= j <= |pm| && Up(pm, b, j) == Some(a);
    UpCompose(pm, c, b, i, j);
    UpBounded(pm, c, i + j);
  }

  /** No node is its own ancestor, hence none is its own descendant. */
  lemma NotOwnAncestor(pm: ParentMap, g: Guid)
    requires Acyclic(pm)
    ensures !IsAncestor(pm, g, g)
  {
    if IsAncestor(pm, g, g) {
      var k :| 1 <= k <= |pm| && Up(pm, g, k) == Some(g);
      var n := |pm| + 1;
      UpPeriodic(pm, g, k, n);
      assert n * k >= n by {
        assert n * k == n * (k - 1) + n;
      }
      UpBounded(pm, g, n * k);
    }
  }

  /** A descendant's descendants are descendants. */
  lemma DescendantsNested(pm: ParentMap, g: Guid, t: Guid)
    requires Acyclic(pm) && t in Descendants(pm, g)
    ensures Descendants(pm, t) <= Descendants(pm, g)
  {
    forall d | d in Descendants(pm, t) ensures d in Descendants(pm, g) {
      AncestorTransitive(pm, g, t, d);
    }
  }

  lemma NotOwnDescendant(pm: ParentMap, g: Guid)
    requires Acyclic(pm)
    ensures g !in Descendants(pm, g)
  {
    NotOwnAncestor(pm, g);
  }
}
