/**
 * The application model (src/fullscreen/app_model.ts): the observed record
 * holding the active page, the current tool and the selection; the
 * AppModel wrapper whose listener forwards SET changes; and the Selection
 * helper whose `add` evicts selected ancestors and descendants of the guid
 * it adds. Each write to the record is one SET change, and `forwarded` logs
 * what the listener passed on to onAppModelChange.
 */
module App {
  import opened Wrappers
  import opened ObserveHelpers
  import opened SceneTree

  datatype Tool = DEFAULT | FRAME

  datatype AppKey = PageKey | CurrentToolKey | SelectionKey

  datatype AppValue = PageValue(page: Guid) | ToolValue(tool: Tool) | SelectionValue(guids: set<Guid>)

  /** The value has the type `Model.App[key]`. */
  predicate Fits(key: AppKey, value: AppValue) {
    match key
    case PageKey => value.PageValue?
    case CurrentToolKey => value.ToolValue?
    case SelectionKey => value.SelectionValue?
  }

  type AppChange = Change<AppKey, AppValue>

  /** The listener installed by the AppModel constructor passes SET changes on and drops DELETE changes. */
  function Forwarded(c: AppChange): (r: seq<AppChange>)
    ensures c.kind == SET ==> r == [c]
    ensures c.kind == DELETE ==> r == []
  {
    if c.kind == SET then [c] else []
  }

  class AppModel {
    var page: Guid
    var currentTool: Tool
    var selection: set<Guid>
    /** Every change handed on to onAppModelChange, oldest first. */
    var forwarded: seq<AppChange>

    constructor(page: Guid, currentTool: Tool, selection: set<Guid>)
      ensures this.page == page && this.currentTool == currentTool && this.selection == selection
      ensures forwarded == []
    {
      this.page := page;
      this.currentTool := currentTool;
      this.selection := selection;
      forwarded := [];
    }

    /** get(key) */
    function Get(key: AppKey): (v: AppValue)
      reads this
      ensures Fits(key, v)
      ensures key == PageKey ==> v.page == page
      ensures key == CurrentToolKey ==> v.tool == currentTool
      ensures key == SelectionKey ==> v.guids == selection
    {
      match key
      case PageKey => PageValue(page)
      case CurrentToolKey => ToolValue(currentTool)
      case SelectionKey => SelectionValue(selection)
    }

    /** The observer's listener: forwards SET changes, ignores DELETE changes. */
    method OnObservedChange(c: AppChange)
      modifies this
      ensures forwarded == old(forwarded) + Forwarded(c)
      ensures page == old(page) && currentTool == old(currentTool) && selection == old(selection)
    {
      if c.kind == SET {
        forwarded := forwarded + [c];
      }
    }

    /** `model[key] = value` through the observed record: one SET change, which is forwarded. */
    method Write(key: AppKey, value: AppValue)
      requires Fits(key, value)
      modifies this
      ensures Get(key) == value
      ensures forall k :: k != key ==> Get(k) == old(Get(k))
      ensures key != PageKey ==> page == old(page)
      ensures key != CurrentToolKey ==> currentTool == old(currentTool)
      ensures key != SelectionKey ==> selection == old(selection)
      ensures forwarded == old(forwarded) + [Change(key, Some(old(Get(key))), Some(value), SET)]
    {
      var c := Change(key, Some(Get(key)), Some(value), SET);
      if value.PageValue? {
        page := value.page;
      } else if value.ToolValue? {
        currentTool := value.tool;
      } else {
        selection := value.guids;
      }
      OnObservedChange(c);
    }

    /** set(key, value): refuses the selection, which only Selection may write; writes any other key. */
    method Set(key: AppKey, value: AppValue) returns (r: Outcome<string>)
      requires Fits(key, value)
      modifies this
      ensures key == SelectionKey ==> r.Fail?
      ensures key == SelectionKey ==> forwarded == old(forwarded) && forall k :: Get(k) == old(Get(k))
      ensures key != SelectionKey ==> r.Pass? && Get(key) == value
      ensures key != SelectionKey ==> forall k :: k != key ==> Get(k) == old(Get(k))
      ensures key != SelectionKey ==> forwarded == old(forwarded) + [Change(key, Some(old(Get(key))), Some(value), SET)]
    {
      if key == SelectionKey {
        return Fail("you should set selection via the Selection class");
      }
      Write(key, value);
      return Pass;
    }

    /** setWith(key, f): writes f(current value) under any key, the selection included. */
    method SetWith(key: AppKey, f: AppValue -> AppValue)
      requires forall v :: Fits(key, v) ==> Fits(key, f(v))
      modifies this
      ensures Get(key) == f(old(Get(key)))
      ensures forall k :: k != key ==> Get(k) == old(Get(k))
      ensures forwarded == old(forwarded) + [Change(key, Some(old(Get(key))), Some(f(old(Get(key)))), SET)]
    {
      Write(key, f(Get(key)));
    }
  }

  /** The selected guids that resolve and have `g` below them. */
  function SelectedAncestorsOf(sel: set<Guid>, pm: ParentMap, g: Guid): set<Guid> {
    set s | s in sel && s in pm && HasDescendant(pm, s, g)
  }

  /** The selected guids below `g`, none when `g` does not resolve. */
  function SelectedChildrenOf(sel: set<Guid>, pm: ParentMap, g: Guid): set<Guid> {
    if g !in pm then {} else set s | s in sel && HasDescendant(pm, g, s)
  }

  /** The selection after add(g): selected ancestors and descendants of `g` evicted, then `g` added. */
  function AddedSelection(sel: set<Guid>, pm: ParentMap, g: Guid): set<Guid> {
    (sel - SelectedAncestorsOf(sel, pm, g) - SelectedChildrenOf(sel, pm, g)) + {g}
  }

  /** No selected guid lies below another, nor below itself. */
  ghost predicate Antichain(pm: ParentMap, sel: set<Guid>) {
    forall a, b :: a in sel && b in sel ==> !HasDescendant(pm, a, b)
  }

  /** add(g) keeps exactly `g` and the previously selected guids that are neither above nor below it. */
  lemma AddKeepsExactlyUnrelated(sel: set<Guid>, pm: ParentMap, g: Guid)
    ensures forall s :: s in AddedSelection(sel, pm, g) <==>
      s == g || (s in sel && !HasDescendant(pm, s, g) && !HasDescendant(pm, g, s))
  {
    forall s | s in sel && s != g
      ensures s in AddedSelection(sel, pm, g) <==> !HasDescendant(pm, s, g) && !HasDescendant(pm, g, s)
    {
      assert s in SelectedAncestorsOf(sel, pm, g) <==> HasDescendant(pm, s, g);
    }
  }

  /** After add(g) in an acyclic scene, no selected guid lies above `g` and none lies below it. */
  lemma AddSeparatesFromRelatives(sel: set<Guid>, pm: ParentMap, g: Guid)
    requires Acyclic(pm)
    ensures g in AddedSelection(sel, pm, g)
    ensures forall s :: s in AddedSelection(sel, pm, g) ==> !HasDescendant(pm, s, g) && !HasDescendant(pm, g, s)
  {
    AddKeepsExactlyUnrelated(sel, pm, g);
    NotOwnAncestor(pm, g);
  }

  /** add(g) keeps the selection free of ancestor/descendant pairs. */
  lemma AddPreservesAntichain(sel: set<Guid>, pm: ParentMap, g: Guid)
    requires Acyclic(pm) && Antichain(pm, sel)
    ensures Antichain(pm, AddedSelection(sel, pm, g))
  {
    AddSeparatesFromRelatives(sel, pm, g);
  }

  /** A single selected guid is an antichain, so clobber(g) establishes the invariant. */
  lemma SingletonAntichain(pm: ParentMap, g: Guid)
    requires Acyclic(pm)
    ensures Antichain(pm, {g})
  {
    NotOwnAncestor(pm, g);
  }

  class Selection {
    const model: AppModel

    constructor(model: AppModel)
      ensures this.model == model
    {
      this.model := model;
    }

    /** has(g) */
    function Has(g: Guid): (r: bool)
      reads model
      ensures r <==> g in model.selection
    {
      g in model.selection
    }

    /** clobber(g): the selection becomes exactly {g}. */
    method Clobber(g: Guid)
      modifies model
      ensures model.selection == {g} && Has(g)
      ensures model.page == old(model.page) && model.currentTool == old(model.currentTool)
      ensures model.forwarded == old(model.forwarded) + [Change(SelectionKey, Some(SelectionValue(old(model.selection))), Some(SelectionValue({g})), SET)]
    {
      model.Write(SelectionKey, SelectionValue({g}));
    }

    /** clear(): the selection becomes empty. */
    method Clear()
      modifies model
      ensures model.selection == {}
      ensures model.page == old(model.page) && model.currentTool == old(model.currentTool)
      ensures model.forwarded == old(model.forwarded) + [Change(SelectionKey, Some(SelectionValue(old(model.selection))), Some(SelectionValue({})), SET)]
    {
      model.Write(SelectionKey, SelectionValue({}));
    }

    /** delete(g): removes `g` and keeps every other selected guid. */
    method Delete(g: Guid)
      modifies model
      ensures model.selection == old(model.selection) - {g} && !Has(g)
      ensures model.page == old(model.page) && model.currentTool == old(model.currentTool)
      ensures model.forwarded == old(model.forwarded) + [Change(SelectionKey, Some(SelectionValue(old(model.selection))), Some(SelectionValue(old(model.selection) - {g})), SET)]
    {
      model.Write(SelectionKey, SelectionValue(model.selection - {g}));
    }

    /** selectedAncestors(g, scene): the selected guids that resolve and have `g` as a descendant. */
    method SelectedAncestors(g: Guid, pm: ParentMap) returns (result: set<Guid>)
      ensures result == SelectedAncestorsOf(model.selection, pm, g)
      ensures forall s :: s in result ==> s in model.selection && s in pm
    {
      result := {};
      var todo := model.selection;
      while todo != {}
        invariant todo <= model.selection
        invariant result == SelectedAncestorsOf(model.selection - todo, pm, g)
        decreases todo
      {
        var s :| s in todo;
        if s in pm && HasDescendant(pm, s, g) {
          result := result + {s};
        }
        todo := todo - {s};
      }
    }

    /** selectedChildren(g, scene): the selected guids below `g`; none when `g` does not resolve. */
    method SelectedChildren(g: Guid, pm: ParentMap) returns (result: set<Guid>)
      ensures result == SelectedChildrenOf(model.selection, pm, g)
      ensures g !in pm ==> result == {}
    {
      result := {};
      if g !in pm {
        return;
      }
      var todo := model.selection;
      while todo != {}
        invariant todo <= model.selection
        invariant result == SelectedChildrenOf(model.selection - todo, pm, g)
        decreases todo
      {
        var s :| s in todo;
        if HasDescendant(pm, g, s) {
          result := result + {s};
        }
        todo := todo - {s};
      }
    }

    /** add(g, scene): evicts the selected ancestors and descendants of `g`, then selects `g`, in one write. */
    method Add(g: Guid, pm: ParentMap)
      modifies model
      ensures model.selection == AddedSelection(old(model.selection), pm, g) && Has(g)
      ensures model.page == old(model.page) && model.currentTool == old(model.currentTool)
      ensures model.forwarded == old(model.forwarded) + [Change(SelectionKey, Some(SelectionValue(old(model.selection))), Some(SelectionValue(model.selection)), SET)]
    {
      var ancestors := SelectedAncestors(g, pm);
      var children := SelectedChildren(g, pm);
      var newSelection := model.selection;
      var todo := ancestors;
      while todo != {}
        invariant todo <= ancestors
        invariant newSelection == model.selection - (ancestors - todo)
        decreases todo
      {
        var a :| a in todo;
        newSelection := newSelection - {a};
        todo := todo - {a};
      }
      todo := children;
      while todo != {}
        invariant todo <= children
        invariant newSelection == model.selection - ancestors - (children - todo)
        decreases todo
      {
        var c :| c in todo;
        newSelection := newSelection - {c};
        todo := todo - {c};
      }
      model.Write(SelectionKey, SelectionValue(newSelection + {g}));
    }
  }
}
