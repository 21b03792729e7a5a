/**
 * The selection enforcer (src/fullscreen/selection_enforcer.ts): after every
 * change of the selection it removes the guids that no longer resolve and
 * the guids lying below another selected guid, guarding against its own
 * re-entry with a lock.
 */
module Enforcer {
  import opened Wrappers
  import opened ObserveHelpers
  import opened SceneTree
  import opened App
  import Scene

  /** The selected guids the enforcer removes: unresolvable ones and those below a selected node. */
  function InvalidSelections(pm: ParentMap, sel: set<Guid>): (r: set<Guid>)
    ensures r <= sel
    ensures forall g :: g in sel && g !in pm ==> g in r
    ensures forall s, g :: s in sel && g in sel && HasDescendant(pm, s, g) ==> g in r
    ensures forall g :: g in r && g in pm ==> exists s :: s in sel && HasDescendant(pm, s, g)
  {
    set g | g in sel && (g !in pm || exists s :: s in sel && HasDescendant(pm, s, g))
  }

  /** What is left of the selection once the enforcer has run. */
  function Enforced(pm: ParentMap, sel: set<Guid>): set<Guid> {
    sel - InvalidSelections(pm, sel)
  }

  /**
   * In an acyclic scene the enforced selection resolves entirely, has no
   * selected guid below another, and still holds every top-level resolvable one.
   */
  lemma EnforcedIsValid(pm: ParentMap, sel: set<Guid>)
    requires Acyclic(pm)
    ensures forall g :: g in Enforced(pm, sel) ==> g in pm
    ensures Antichain(pm, Enforced(pm, sel))
    ensures forall g :: g in sel && g in pm && (forall s :: s in sel ==> !HasDescendant(pm, s, g)) ==> g in Enforced(pm, sel)
  {
    var e := Enforced(pm, sel);
    forall a, b | a in e && b in e
      ensures !HasDescendant(pm, a, b)
    {
      assert b !in InvalidSelections(pm, sel);
    }
  }

  /** A second pass removes nothing: the enforcer's own write leaves no further work. */
  lemma EnforceIdempotent(pm: ParentMap, sel: set<Guid>)
    requires Acyclic(pm)
    ensures InvalidSelections(pm, Enforced(pm, sel)) == {}
    ensures Enforced(pm, Enforced(pm, sel)) == Enforced(pm, sel)
  {
    EnforcedIsValid(pm, sel);
  }

  /** An already valid selection is left as it is. */
  lemma EnforceKeepsValidSelection(pm: ParentMap, sel: set<Guid>)
    requires forall g :: g in sel ==> g in pm
    requires Antichain(pm, sel)
    ensures Enforced(pm, sel) == sel
  {
    assert InvalidSelections(pm, sel) == {};
  }

  class SelectionEnforcer {
    const scene: Scene.SceneGraph
    /** Set while a pass is running; undefined, hence false, until the first pass. */
    var lock: bool

    constructor(scene: Scene.SceneGraph)
      ensures this.scene == scene && !lock
    {
      this.scene := scene;
      lock := false;
    }

    /**
     * computeInvalidSelections(app): whatever order the selection is visited
     * in, the result is InvalidSelections of the scene and the selection.
     */
    method ComputeInvalidSelections(app: AppModel) returns (toDelete: set<Guid>)
      requires Acyclic(scene.Parents())
      ensures toDelete == InvalidSelections(scene.Parents(), app.selection)
    {
      var pm := scene.Parents();
      var sel := app.selection;
      toDelete := {};
      var todo := sel;
      while todo != {}
        invariant todo <= sel
        invariant toDelete <= InvalidSelections(pm, sel)
        invariant forall v :: v in sel - todo && v !in pm ==> v in toDelete
        invariant forall v :: v in sel - todo && v in pm ==> Descendants(pm, v) * sel <= toDelete
        invariant forall t :: t in toDelete && t in pm ==> Descendants(pm, t) * sel <= toDelete
        decreases todo
      {
        var g :| g in todo;
        todo := todo - {g};
        if g in toDelete {
          continue;
        }
        if g !in pm {
          toDelete := toDelete + {g};
          continue;
        }
        var descendants := Descendants(pm, g);
        ghost var before := toDelete;
        var inner := sel;
        while inner != {}
          invariant inner <= sel
          invariant toDelete == before + descendants * (sel - inner)
          decreases inner
        {
          var h :| h in inner;
          if h in descendants {
            toDelete := toDelete + {h};
          }
          inner := inner - {h};
        }
        forall t | t in toDelete && t in pm
          ensures Descendants(pm, t) * sel <= toDelete
        {
          if t !in before {
            DescendantsNested(pm, g, t);
          }
        }
      }
    }

    /**
     * onAppModelChange(change): on a selection change, and unless a pass is
     * already running, removes the invalid guids in one write. That write
     * reaches the enforcer again while it holds the lock, and is ignored.
     */
    method OnAppModelChange(change: AppChange, app: AppModel)
      requires Acyclic(scene.Parents())
      modifies this, app
      decreases if lock then 0 else 1
      ensures lock == old(lock)
      ensures app.page == old(app.page) && app.currentTool == old(app.currentTool)
      ensures change.key != SelectionKey || old(lock) ==>
        app.selection == old(app.selection) && app.forwarded == old(app.forwarded)
      ensures change.key == SelectionKey && !old(lock) ==>
        app.selection == Enforced(scene.Parents(), old(app.selection))
      ensures change.key == SelectionKey && !old(lock) ==>
        app.forwarded == old(app.forwarded) + (
          if InvalidSelections(scene.Parents(), old(app.selection)) == {} then []
          else [Change(SelectionKey, Some(SelectionValue(old(app.selection))),
                       Some(SelectionValue(Enforced(scene.Parents(), old(app.selection)))), SET)])
    {
      if change.key != SelectionKey {
        return;
      }
      if lock {
        return;
      }
      lock := true;
      var toDelete := ComputeInvalidSelections(app);
      if toDelete != {} {
        app.Write(SelectionKey, SelectionValue(app.selection - toDelete));
        OnAppModelChange(app.forwarded[|app.forwarded| - 1], app);
      }
      lock := false;
    }
  }
}
