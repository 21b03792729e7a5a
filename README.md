# tiny-figma editing engine, in Dafny

This project models the in-memory editing engine of tiny-figma, a prototype
vector design editor, and proves what that engine promises. It covers:

- **Selection.** The application model holds the active page, the current tool
  and the selected guids. The `Selection` helper's `add` evicts selected
  ancestors and descendants of the guid it adds. The selection enforcer then
  removes guids that no longer resolve in the scene, and guids that lie below
  another selected guid. A `lock` stops it from re-entering itself.
- **Mouse behaviours.** The selection tool handles click, shift-click toggle
  and hover. The frame tool creates a frame on mouse down, sizes it to the
  dragged rectangle on drag and on release, then stops tracking it.
- **Selection transformer.** It records each selected node's starting
  transform. On every update it sets each node to `translate(end - start) ·
  start`.
- **Change notification.**
  - `Observer` keeps a set of listeners.
  - An observed object (the proxy `observeObject` returns) applies each write
    or delete, then emits exactly one SET or DELETE change.
  - `SceneGraph` turns those changes into node added, removed and changed
    notifications.
  - Listeners are modelled as ids. Every listener call is appended to a
    delivery log, so "who was told what, in which order" is a property of the
    log.
- **Affine helpers.** gl-matrix `mat2d` is modelled as a six-entry record over
  `real`, in the order `[a, b, c, d, tx, ty]`. On top of it the project
  models:
  - camera zoom about a fixed viewport point
  - point-array and drawable transforms
  - the transform accumulation of the recursive renderer
- **Utilities and reducers.**
  - `generateUniqueActionType` with its registry of used types.
  - Action creators and `matches`.
  - The cycling colour picker.
  - The counter and scene-graph reducers of the web and standalone stores.

### How the scene is represented

The scene's structure is a finite map from each guid to its optional parent.
The selection code calls `getNode` on the SceneGraph and `hasDescendant` and
`descendants` on the SceneNode it returns. The SceneGraph class in
src/fullscreen/scene.ts defines no `getNode` (nor `addFrame`), and the
SceneNode class that behaviors.ts imports from it is not defined there either.
Here these queries are defined as:

- membership in the map
- the ancestor relation along chains of parents
- the set of nodes below a node, excluding the node itself

The selection code asks for the map to be acyclic.

### Where the model follows the code over the declared types

- `observeObject` is declared with one argument (src/helpers/observe_helpers.ts:35). Its callers pass a target and an observer (src/fullscreen/scene.ts:18, src/fullscreen/app_model.ts:97). The model follows the callers: an observed object writes through the observer it is given.
- The SceneGraph of src/fullscreen/scene.ts has no `getNode` or `addFrame`, and exports no `SceneNode`, though behaviors.ts, app_model.ts, selection_enforcer.ts and selection_transformer.ts call or import them. The model defines the lookups on the parent map and treats `addFrame` as adding a frame node.
- The `Change` interface has no `object` field (src/helpers/observe_helpers.ts:4-9), yet src/fullscreen/scene.ts:33,36 read `c.object.guid` and src/fullscreen/selection_enforcer.ts:45 reads `change.object`. The model passes that object explicitly: NodeFieldEvents takes the changed node's guid, and OnAppModelChange takes the app model whose change it handles.
- src/web/reducers.ts:1 imports an `actionCreators` object that src/web/actions.ts does not define. The model passes the creators the reducers consult as parameters.

## Model

| member | source | states |
|---|---|---|
| Affine.EntryLayout | src/fullscreen/editor.spec.ts:60-76 | The identity is [1,0,0,1,0,0]. A translation by (2,3) keeps 2 and 3 in entries 4 and 5. |
| Affine.ApplyMultiply | src/fullscreen/editor.spec.ts:46-58 | A product of matrices applies its right factor first, then its left one. |
| Affine.TranslateAfter | src/fullscreen/selection_transformer.ts:38 | Pre-multiplying by a translation keeps the linear part and adds the vector to the offset entries. |
| Graphics.TransformArray | src/fullscreen/graphics.ts:32-38 | Length and order are kept. Output i is input i under the matrix. The copy at src/fullscreen/editor.tsx:15-21 is the same function. |
| Graphics.TransformArrayCompose | src/fullscreen/graphics.ts:32-38 | Transforming by q and then by p is the same as transforming once by p·q. |
| Graphics.TransformArrayIdentity | src/fullscreen/graphics.ts:32-38 | The identity leaves every point array unchanged. |
| Graphics.TransformDrawable | src/fullscreen/graphics.ts:40-57 | The variant tag is kept. For a polygon or line only the points change, each mapped by the matrix, and the fill, stroke, colour and weight are kept. A background comes back unchanged. |
| Graphics.TransformDrawableCompose | src/fullscreen/graphics.ts:40-57 | Transforming a drawable twice is the same as transforming it once by the product. |
| Graphics.TransformDrawableIdentity | src/fullscreen/graphics.ts:40-57 | The identity leaves every drawable unchanged. |
| Graphics.TransformDrawables | src/fullscreen/graphics.ts:58-60 | Maps elementwise, keeping length and order. |
| Graphics.TransformDrawablesAppend | src/fullscreen/graphics.ts:58-60 | Transforming a concatenation is the same as concatenating the transformed parts. |
| Editor.PreMultiply | src/fullscreen/editor.tsx:58-60 | One in-place `mat2d.multiply(A, L, A)` leaves A equal to L·A. |
| Editor.ZoomCameraRetainingOrigin | src/fullscreen/editor.tsx:55-63 | Afterwards the array holds T(x)·S(s)·T(-x)·A, and the same array is returned. |
| Editor.ZoomScalesAboutOrigin | src/fullscreen/editor.tsx:55-63 | After zooming, every viewport position is scaled by s away from x. |
| Editor.ZoomRetainsOrigin | src/fullscreen/editor.spec.ts:34-40 | An absolute point that the camera mapped to x is still mapped to x after zooming about x. |
| Editor.RecursivelyRender | src/fullscreen/editor.tsx:110-128 | A frame first draws its own box, from the image of (0,0) to the image of (width, height) under m·relativeTransform. A canvas draws no rectangle of its own, only its children under that matrix. |
| Editor.LayeredChild | src/fullscreen/editor.tsx:124-127 | The walk into a child stays within a finite subtree, strictly lower in rank, so the recursion ends. |
| Editor.AccumulateIsCameraTimesChain | src/fullscreen/editor.tsx:110-128 | The matrix a node is drawn with is the camera times the product of the relative transforms on the path to it. |
| Editor.RenderChildrenContains | src/fullscreen/editor.tsx:124-127 | Every rectangle drawn by a child appears in its parent's output. |
| Editor.RenderDrawsReachableFrame | src/fullscreen/editor.tsx:110-128 | Every frame reachable through children is drawn from the image of (0,0) to the image of (width, height), under the accumulated matrix. |
| Editor.RenderedComesFromFrame | src/fullscreen/editor.tsx:110-128 | Conversely, every rectangle drawn is the box of a frame reachable from the root, under the matrix accumulated along the path to it. |
| Editor.RenderChildrenComesFromFrame | src/fullscreen/editor.tsx:124-127 | Every rectangle the children draw is the box of a frame below one of them. |
| SceneTree.AncestorTransitive | src/fullscreen/app_model.ts:53-80 | In an acyclic scene the ancestor relation is transitive. |
| SceneTree.NotOwnAncestor | src/fullscreen/app_model.ts:53-80 | In an acyclic scene no node is its own ancestor. |
| SceneTree.DescendantsNested | src/fullscreen/selection_enforcer.ts:28-34 | A descendant's descendants are descendants. |
| ObserveHelpers.Without | src/helpers/observe_helpers.ts:24-26 | Removes exactly the given listener, keeps the others and keeps them distinct. |
| ObserveHelpers.Broadcast | src/helpers/observe_helpers.ts:28-32 | Delivers one call per listener, in registration order. |
| ObserveHelpers.DeliveredIffRegistered | src/helpers/observe_helpers.ts:28-32 | A change reaches a listener exactly when that listener is registered. |
| ObserveHelpers.Observer.constructor | src/helpers/observe_helpers.ts:16-18 | Starts with no listeners and no deliveries. |
| ObserveHelpers.Observer.AddListener | src/helpers/observe_helpers.ts:20-22 | Idempotent: a listener already present leaves the set unchanged. Delivers nothing. |
| ObserveHelpers.Observer.RemoveListener | src/helpers/observe_helpers.ts:24-26 | The listener is gone and later notifications skip it. The others stay, in order. |
| ObserveHelpers.Observer.NotifyChange | src/helpers/observe_helpers.ts:28-32 | Appends one delivery of the change to each registered listener, in order. |
| ObserveHelpers.ObservedObject.constructor | src/helpers/observe_helpers.ts:35-37 | Wraps the target with the given observer. |
| ObserveHelpers.ObservedObject.Set | src/helpers/observe_helpers.ts:38-44 | Stores the value, then emits exactly one SET change. The change carries the previous value (or none) and the new value. |
| ObserveHelpers.ObservedObject.Delete | src/helpers/observe_helpers.ts:45-51 | Removes the key, then emits exactly one DELETE change. The change carries the old value and no new value. |
| Scene.WithField | src/fullscreen/scene.ts:64 | Writing a node field sets that field and keeps the other fields, the guid, the parent and the node type. |
| Scene.SceneMapEvents | src/fullscreen/scene.ts:23-30 | A DELETE becomes node-removed. A SET becomes node-added only when the key already held a node. Nothing else is produced. |
| Scene.NodeFieldEvents | src/fullscreen/scene.ts:31-38 | A DELETE, or a SET over a present value, becomes node-changed with the change itself. Otherwise nothing is produced. |
| Scene.BroadcastEvent | src/fullscreen/scene.ts:45-61 | Each notify method calls every listener once, in registration order. |
| Scene.AnnounceAppend | src/fullscreen/scene.ts:45-61 | Announcing two runs of events in turn is the same as announcing them together. |
| Scene.AnnouncedIffRegistered | src/fullscreen/scene.ts:45-61 | An event reaches a listener exactly when that listener is registered. |
| Scene.SceneGraph.constructor | src/fullscreen/scene.ts:17-39 | Stores every initial node under its own guid, with no listeners and no deliveries: the initial nodes notify nobody. |
| Scene.SceneGraph.AddSceneGraphListener | src/fullscreen/scene.ts:41-43 | Registering the same listener twice has the effect of registering it once. |
| Scene.SceneGraph.NotifyListeners | src/fullscreen/scene.ts:45-61 | Appends exactly the broadcast of the event. Nodes and listeners are unchanged. |
| Scene.SceneGraph.Notify | src/fullscreen/scene.ts:23-38 | Passes on the event an observed change became, if any. |
| Scene.SceneGraph.AddNode | src/fullscreen/scene.ts:63-65 | Stores the node under its own guid, replacing any previous node, and announces the scene-map SET change. |
| Scene.SceneGraph.DeleteEntry | src/fullscreen/scene.ts:24-26 | Removing a key announces node-removed to every listener. |
| Scene.SceneGraph.SetNodeField | src/fullscreen/scene.ts:31-38 | Writes the field and announces node-changed when the field had a value before. |
| Scene.AddNodeAnnouncement | src/fullscreen/scene.ts:27-29 | A first-time insert notifies nobody. Overwriting announces node-added. |
| App.AppModel.constructor | src/fullscreen/app_model.ts:94-105 | Holds the given page, tool and selection, with nothing forwarded yet. |
| App.AppModel.Get | src/fullscreen/app_model.ts:126-128 | Returns the stored page, tool or selection for its key, as a value of the key's type. |
| App.AppModel.OnObservedChange | src/fullscreen/app_model.ts:100-104 | Forwards a SET change, drops a DELETE change, and changes no field. |
| App.AppModel.Write | src/fullscreen/app_model.ts:119 | Sets the key, keeps the other keys, and forwards one SET change carrying the old and new values. |
| App.AppModel.Set | src/fullscreen/app_model.ts:115-120 | For the selection key it fails and changes nothing. Any other key is written as given, with one forwarded change. |
| App.AppModel.SetWith | src/fullscreen/app_model.ts:122-124 | The key becomes f of its old value, the selection included. The other keys are kept. |
| App.AddKeepsExactlyUnrelated | src/fullscreen/app_model.ts:33-47 | After add(g) the selection is g plus exactly the previously selected guids that are neither above nor below g. |
| App.AddSeparatesFromRelatives | src/fullscreen/app_model.ts:33-47 | After add(g), g is selected, and no selected guid is an ancestor or a descendant of g. |
| App.AddPreservesAntichain | src/fullscreen/app_model.ts:33-47 | add keeps the selection free of ancestor/descendant pairs. |
| App.SingletonAntichain | src/fullscreen/app_model.ts:21-23 | The selection clobber leaves, {g}, is free of such pairs. |
| App.Selection.constructor | src/fullscreen/app_model.ts:13-15 | Wraps the given model. |
| App.Selection.Clobber | src/fullscreen/app_model.ts:21-23 | The selection becomes exactly {g} in one forwarded write. Page and tool are kept. |
| App.Selection.Clear | src/fullscreen/app_model.ts:25-27 | The selection becomes empty in one forwarded write. |
| App.Selection.Delete | src/fullscreen/app_model.ts:29-31 | Removes g and keeps every other selected guid. |
| App.Selection.SelectedAncestors | src/fullscreen/app_model.ts:53-64 | Returns the selected guids that resolve and have g below them. Selected guids that do not resolve are skipped. |
| App.Selection.SelectedChildren | src/fullscreen/app_model.ts:66-80 | Returns the selected guids below g. Returns none when g does not resolve. |
| App.Selection.Add | src/fullscreen/app_model.ts:33-47 | The new selection drops the selected ancestors and descendants of g, then adds g, in one forwarded write. |
| Enforcer.InvalidSelections | src/fullscreen/selection_enforcer.ts:14-38 | A subset of the selection. It holds every unresolvable guid and every guid below another selected one. Every resolvable guid in it has a selected ancestor. |
| Enforcer.EnforcedIsValid | src/fullscreen/selection_enforcer.ts:40-56 | After a pass, every guid resolves and none lies below another. Each resolvable guid with no selected ancestor is kept. |
| Enforcer.EnforceIdempotent | src/fullscreen/selection_enforcer.ts:40-56 | A second pass finds nothing more to delete. |
| Enforcer.EnforceKeepsValidSelection | src/fullscreen/selection_enforcer.ts:50-53 | An already valid selection is left as it is. |
| Enforcer.SelectionEnforcer.constructor | src/fullscreen/selection_enforcer.ts:10-12 | Keeps the scene. The lock starts unset. |
| Enforcer.SelectionEnforcer.ComputeInvalidSelections | src/fullscreen/selection_enforcer.ts:14-38 | The result is InvalidSelections, whatever order the selection is visited in. |
| Enforcer.SelectionEnforcer.OnAppModelChange | src/fullscreen/selection_enforcer.ts:40-56 | Does nothing for other keys or while locked. Otherwise the selection becomes the old one minus the invalid set, in at most one write. The lock is restored when it returns. |
| Behaviors.ClickedSelection | src/fullscreen/behaviors.ts:48-60 | Shift toggles the hit guid and keeps all others. A plain click leaves exactly {hit}. |
| Behaviors.ShiftClickTwiceRestores | src/fullscreen/behaviors.ts:48-55 | Two shift-clicks on one node restore the selection. |
| Behaviors.ShiftClickBelowSelectedIsUndone | src/fullscreen/behaviors.ts:48-55 | Shift-adding a node below a selected one is undone by the enforcer, which restores the earlier selection. |
| Behaviors.SelectionMouseBehavior.constructor | src/fullscreen/behaviors.ts:38-41 | Keeps scene and model, and hovers nothing. |
| Behaviors.SelectionMouseBehavior.HandleMouseDown | src/fullscreen/behaviors.ts:43-65 | Clears the hover. Captures exactly when the hit is inside a node; the selection then becomes the clicked one in one write. Otherwise the selection is unchanged. |
| Behaviors.SelectionMouseBehavior.HandleMouseMove | src/fullscreen/behaviors.ts:70-78 | Hovers the hit guid when the hit is inside a node, otherwise nothing. |
| Behaviors.TopLeft | src/fullscreen/behaviors.ts:134-139 | The componentwise minimum of the two points. |
| Behaviors.BottomRight | src/fullscreen/behaviors.ts:141-146 | The componentwise maximum of the two points. |
| Behaviors.Width | src/fullscreen/behaviors.ts:148-150 | Never negative: the horizontal distance between the points. |
| Behaviors.Height | src/fullscreen/behaviors.ts:152-154 | Never negative: the vertical distance between the points. |
| Behaviors.FrameCoversDraggedRectangle | src/fullscreen/behaviors.ts:130-154 | The frame placed by relativeTransform and sized by width and height covers exactly the dragged rectangle, in either drag direction. |
| Behaviors.NewFrame | src/fullscreen/behaviors.ts:160-166 | The frame added on mouse down: a child of the page, sized and placed from the two corners. |
| Behaviors.Reshaped | src/fullscreen/behaviors.ts:181-183 | Writing width, height and transform sets exactly those three and keeps guid, parent, colour and type. |
| Behaviors.ResizeCoversRectangle | src/fullscreen/behaviors.ts:180-184 | After a resize the tracked frame covers the rectangle between the corners. No other node changes. |
| Behaviors.ResizeLastWins | src/fullscreen/behaviors.ts:192-205 | Only the last pointer position of a drag matters. |
| Behaviors.ReshapeAnnouncement | src/fullscreen/behaviors.ts:181-183 | The three field writes together announce the three field changes, in order. |
| Behaviors.UntrackedDragChangesNothing | src/fullscreen/behaviors.ts:195 | With no tracked guid a drag leaves the scene unchanged. |
| Behaviors.FrameMouseBehavior.constructor | src/fullscreen/behaviors.ts:125-128 | Keeps scene and model, and tracks no frame. |
| Behaviors.FrameMouseBehavior.HandleMouseDown | src/fullscreen/behaviors.ts:156-170 | Sets start = end = the pointer. Adds a zero-sized frame translated to that point, with the next picker colour, and tracks it. Always captures. |
| Behaviors.FrameMouseBehavior.WriteGeometry | src/fullscreen/behaviors.ts:181-183 | Writes width, height and transform of the frame, announcing each write. |
| Behaviors.FrameMouseBehavior.ResizeNewNode | src/fullscreen/behaviors.ts:175-184 | Resizes the tracked node only if it is set, non-empty, still present and a frame. Otherwise it is a no-op. Reports whether the node was found. |
| Behaviors.FrameMouseBehavior.HandleMouseDrag | src/fullscreen/behaviors.ts:192-205 | Moves the end corner and resizes the tracked frame to the new rectangle. |
| Behaviors.FrameMouseBehavior.HandleMouseUp | src/fullscreen/behaviors.ts:172-187 | Resizes like a drag. Stops tracking when the node was found, so later drags change nothing. |
| Transformer.Captured | src/fullscreen/selection_transformer.ts:12-25 | Records exactly the selected guids that resolve, each with its relativeTransform at that time. |
| Transformer.MovedTranslatesRecorded | src/fullscreen/selection_transformer.ts:37-40 | A recorded node keeps its starting linear part. Its offset moves by end - start, so each of its points moves by exactly that delta. |
| Transformer.MovedKeepsTheRest | src/fullscreen/selection_transformer.ts:30-35 | Unrecorded nodes are untouched. No node is added or removed, and only transforms change. |
| Transformer.MovedLastWins | src/fullscreen/selection_transformer.ts:37-40 | Updates do not accumulate: the result depends only on the latest end point. |
| Transformer.UpdateAtStartRestores | src/fullscreen/selection_transformer.ts:27-42 | An update back at the start point, right after capture, leaves every node as it was. |
| Transformer.SelectionTransformer.constructor | src/fullscreen/selection_transformer.ts:12-25 | The recorded map is Captured(selection, scene), and the start point is kept. |
| Transformer.SelectionTransformer.Update | src/fullscreen/selection_transformer.ts:27-42 | The scene becomes Moved by end - start. Listeners are unchanged, and each new delivery reports a transform change of a recorded node. |
| PrimitiveHelpers.PickRandom | src/helpers/primitive_helpers.ts:3-6 | For a non-empty list it returns an element of the list. |
| PrimitiveHelpers.PickRandomReachesEvery | src/helpers/primitive_helpers.ts:3-6 | Every element can be picked. |
| PrimitiveHelpers.PickAt | src/helpers/primitive_helpers.ts:8-11 | The n-th call returns ts[n mod \|ts\|], an element of ts. It is undefined for an empty list. |
| PrimitiveHelpers.PickAtPeriodic | src/helpers/primitive_helpers.ts:10 | Calls n and n + \|ts\| return the same value. |
| PrimitiveHelpers.Picker.constructor | src/helpers/primitive_helpers.ts:8-9 | A fresh picker has its own counter, which starts at 0. |
| PrimitiveHelpers.Picker.Pick | src/helpers/primitive_helpers.ts:10 | Returns PickAt of the current count and advances the count by exactly one. |
| PrimitiveHelpers.RandomColorPicker | src/helpers/primitive_helpers.ts:13-20 | A picker over the six colours, starting at the first. |
| PrimitiveHelpers.RandomColorOrder | src/helpers/primitive_helpers.ts:13-20 | The n-th colour is the six colours in order, then again from '#aaf'. |
| ReduxHelpers.Dec | src/helpers/redux_helpers.ts:48 | Prints the decimal digits of the suffix. |
| ReduxHelpers.DecInjective | src/helpers/redux_helpers.ts:48 | Different suffixes print differently. |
| ReduxHelpers.Candidate | src/helpers/redux_helpers.ts:45-50 | The k-th name tried is the type itself exactly when k = 0, and type_(k-1) after that. |
| ReduxHelpers.CandidateInjective | src/helpers/redux_helpers.ts:45-50 | No name is tried twice, which is why the search ends. |
| ReduxHelpers.CreatorsRecogniseOwnActions | src/helpers/redux_helpers.ts:71-77 | A creator recognises its own actions. Another creator recognises them exactly when it has the same type. |
| ReduxHelpers.ActionTypeRegistry.constructor | src/helpers/redux_helpers.ts:42 | No type is used at first. |
| ReduxHelpers.ActionTypeRegistry.GenerateUniqueActionType | src/helpers/redux_helpers.ts:44-55 | Returns the type when it is unused. Otherwise returns the first unused name of type_0, type_1, and so on. The result was unused and becomes the one new used entry, so no name is returned twice. |
| ReduxHelpers.ActionTypeRegistry.CreateActionCreator | src/helpers/redux_helpers.ts:59-80 | Returns a creator of a fresh unique type, recorded as used: the requested type itself when unused, otherwise the first unused candidate in the numbered sequence. |
| WebReducers.Amount | src/web/reducers.ts:33 | payload.amount is a number exactly when present and numeric, and then it is that number. Otherwise it is NaN. |
| WebReducers.CounterSumsContributions | src/web/reducers.ts:28-36 | From a finite start the counter ends at the start plus 1 per incrementCounter and plus each amount. Other actions leave it unchanged. |
| WebReducers.CounterNaNSticks | src/web/reducers.ts:32-34 | Once the counter is NaN, no action restores it. |
| WebReducers.SpoiledCountStaysNaN | src/web/reducers.ts:32-34 | An incrementCounterBy with no numeric amount turns the counter to NaN for good. |
| WebReducers.SceneGraphHoldsLastInjection | src/web/reducers.ts:38-50 | The mirrored graph is the payload of the last injection, or the initial graph; notifications and other actions keep it. |
| WebReducers.LastInjectedFront | src/web/reducers.ts:38-50 | The first action of a run sets the starting graph for the rest. |
| WebReducers.RunWebKeepsSlicesApart | src/web/reducers.ts:53-56 | Any run of the combined reducer, from any state, equals the counter reducer's run on the counter slice paired with the scene-graph reducer's run on the graph slice. |
| WebReducers.WebStoreAfter | src/web/reducers.ts:25-56 | From the first dispatch, the store's counter is the sum of the contributions while every amount is numeric, and its graph is the last injected payload. |
| WebReducers.InitialState | src/web/reducers.ts:28-50 | The initial state is counter 0 and an empty graph. |
| ReduxReducers.RunReduxIsCounterRun | src/redux/reducers.ts:20-22 | Any run of the standalone store's reducer holds exactly the counter reducer's run over the same actions. |
| ReduxReducers.CountsToFive | src/redux/reducers.ts:10-22 | Dispatching incrementCounter twice and then incrementCounterBy({amount: 3}) to a fresh store leaves the state {counter: 5}. |

## Left out

- User interface: the React components, the test runner configuration and the redux middleware have no engine logic.
- Drawing and input:
  - The `Canvas` classes and the canvas helpers are I/O.
  - The Editor constructor's mouse and wheel handlers, `switchTool`, `think` and `render` (the background, axis lines and flush) are wiring and drawing around the modelled functions.
  - The wheel pan through `mat2d.translate` is not modelled.
- `SelectionMouseBehavior.render` and `FrameMouseBehavior.render` are not modelled: the first needs the SceneNode's `renderOutline`, which is not part of this model.
- Empty handlers: the selection tool's mouse up and drag, and the frame tool's mouse move, do nothing and are not modelled.
- Scene queries: `hits` is a function parameter. `getNode`, `hasDescendant` and `descendants` are defined on the parent map. `addFrame` is modelled as adding the frame node. `removeNode` and `hierarchyString` are not modelled.
- Randomness:
  - `Math.random` is the `random` parameter of PickRandom.
  - `generateGUID` is the `guid` parameter of the frame tool's mouse down.
  - `SceneGraph.create` in src/fullscreen/scene_graph.ts is not modelled.
- Floating point: coordinates, matrices and counters are reals. Rounding and infinities are not modelled, and the counter's number type has only finite values and NaN.
- The hit tolerance `4.0 / cameraScale` is not computed: the hit test receives the camera scale itself.
- Logging: the `console.error` calls are omitted.
- Wiring of the app-model listener: `setAppModelListener` is not modelled. The forwarded changes are logged instead of being passed to a listener, so the source's failure when no listener is set is not modelled.
- The superseded prototype under src/editor is not part of this model.
- `asyncSleep` and `invert` are not part of this model: one uses timers, the other wraps gl-matrix.
- Behaviors.FrameMouseBehavior.constructor: both corners start at (0,0) rather than undefined. Before the first mouse down, nothing reads them.
- Behaviors.FrameMouseBehavior.HandleMouseDown: the colour comes from the module-level picker, passed in as an object over the six colours.
- Transformer.SelectionTransformer.Update: does not state the order or the number of the notifications, only that each one reports a transform change of a recorded node and that earlier deliveries are kept.
- WebReducers.Amount: a non-numeric amount makes the sum NaN rather than a JavaScript string concatenation.
- Enforcer.SelectionEnforcer.ComputeInvalidSelections: requires an acyclic scene. The node tree the selection code walks is assumed to have no cycles, and the model states this assumption.
- Editor.RecursivelyRender: requires the subtree the walk visits from the rendered node to be finite and acyclic, with resolving child references. The source throws a TypeError when a reachable child guid does not resolve (src/fullscreen/editor.tsx:111, 125-126) and recurses without bound on a cycle; neither failure is modelled. Nodes the walk never reaches are unconstrained.
- Behaviors.NewFrame: `addFrame` is given no `resizeToFit` (src/fullscreen/behaviors.ts:160-166), so the new node leaves the optional field unset. The model's Frame kind has no absent case, so it stores `false`; no modelled code reads the field.
- Scene.SceneGraph.SetNodeField: models writes of width, height and relativeTransform only, the fields the editing code writes. Deleting a node field is not modelled.
