# omni3d-scene: a verified model of the scene editor's data logic

omni3d-scene is a browser-based 3D scene editor with a small Java server.
The editor keeps a scene: a forest of scene objects. Some objects carry a
glTF sub-mesh structure of named nodes. Objects also carry custom keyframe
animations, interaction events, data bindings that pull live values from
polled data sources, and HTML label templates. The server stores projects,
assets and templates, and saves uploaded files to an `uploads` directory.

This project models the part of both programs that decides what happens to
that data. It follows the source file by file, one Dafny module per file.

- **Editor store.** The editor's global store is `EditorStore.Store`, a
  class with one field per state slot. Its actions are methods that
  reassign those fields:
  - adding, updating, removing and duplicating objects and sub-meshes;
  - undo and redo over a bounded history;
  - the timeline's open and close rule;
  - roaming;
  - interaction actions;
  - label templates and data values.
- **Tree helpers.** The store's helpers (`StoreUtils`) and the scene-tree
  utilities (`TreeUtils`) cover:
  - cloning with fresh ids;
  - finding, updating, removing and duplicating nodes;
  - deep property writes;
  - reverting to a saved original;
  - applying data bindings;
  - lock checks and the scan for playing animations.
- **Data tags.** `DataTags` flattens a data-source response into tags.
- **API records.** `ApiTemplate`, `ApiProject` and `ApiAsset` are the
  client's record conversions.
- **Editor hooks and panels.** The remaining frontend modules follow the
  editor's hooks and panels:
  - template preview;
  - data-binding dispatch and label filling;
  - the tree-item rename state machine;
  - interaction events;
  - transform edits;
  - the timeline recorder and the keyframe editor;
  - the data-binding runner's source scan and the binding dialog's tree
    and filter;
  - the property field, the label, sequence, glTF and scene sections;
  - the template manager and sidebar;
  - the asset upload dialog.
- **Server.** `ServerFiles`, `AssetService` and `ProjectService` model the
  server's upload and list-filter services:
  - the `uploads` directory is a class holding a map from file name to
    bytes;
  - the tables are fields of the service classes.

The helper modules do not model any source file:

- `Wrappers` holds `Option` and `Result`.
- `Text` holds the string operations JavaScript and Java provide: split,
  join, replace-all, trim, ASCII lower-casing and number printing. It also
  holds SQL's `LIKE` pattern match.
- `Json` holds JavaScript values, truthiness and dictionaries. A
  dictionary keeps its entries in the order they were written, and a key
  reads as its last entry. `Json.OwnKeys` is the order in which
  `Object.keys`, `Object.entries` and `for ... in` visit an object: keys
  that are array indices first, in ascending numeric order, then the other
  keys in the order of their first entry, each key once.
- `Scene` holds the scene entities, their flattening and the merge of an
  update into a graph node.

Some things the programs take from outside become inputs to the model:

- Random ids, UUIDs and `Date.now()` are parameters; a tree clone draws its
  ids from a `mint` function through a counter.
- A `new Function` expression is evaluated by a possibly failing `eval`
  parameter.
- JavaScript's `String(x)` is a parameter.
- The answers of the server, the dialogs and the thumbnail renderer are
  parameters.

## Model

| member | source | states |
|---|---|---|
| StoreUtils.CloneNodes | frontend/src/store/utils.ts:14-25 | `children.map(cloneNode)` keeps the number of children |
| StoreUtils.CloneNodeShape | frontend/src/store/utils.ts:14-25 | the clone of a subtree is, node by node in pre-order, a copy of the original (same name, properties, child count) whose ids are the fresh ids drawn in order; exactly one id is drawn per node |
| StoreUtils.CloneNodesShape | frontend/src/store/utils.ts:21-23 | the same for a list of children, the ids continuing from one child to the next |
| StoreUtils.CloneIdsDistinct | frontend/src/store/utils.ts:14-25 | with an injective id source the copy's ids are pairwise distinct |
| StoreUtils.FindNodeInTreeFirst | frontend/src/store/utils.ts:242-251 | `findNodeInTree` returns the first node with the id in pre-order, and `null` iff no node has it |
| StoreUtils.FindInNodesFirst | frontend/src/store/utils.ts:244-249 | the loop over the children finds the first match in the children's pre-order |
| StoreUtils.FirstNodeWithId | frontend/src/store/utils.ts:242-251 | the reference search: present iff some node has the id, and then it has the id |
| StoreUtils.UpdateNodeInTree | frontend/src/store/utils.ts:34-42 | `updateNodeInTree` keeps the root's id |
| Scene.MergeNode | frontend/src/store/utils.ts:36 | `{...node, ...updates}` on a graph node: id, children, source id and original name are kept; the name and each property the update gives win and the others stay; every other key the update gives is carried by the node |
| Scene.MergeNodeKeeps | frontend/src/store/utils.ts:36 | a key the node carried before and the update does not give is still carried afterwards |
| StoreUtils.UpdateNodeInTreeFound | frontend/src/store/utils.ts:34-42 | afterwards the first node with the target id is the old one with the update spread onto it (`{...node, ...updates}`: the name and properties it gives, and every other key it gives, carried by the node); no such node before, none after |
| StoreUtils.UpdateNodesFound | frontend/src/store/utils.ts:38-40 | the same for the mapped children |
| StoreUtils.UpdateNodeInTreeIds | frontend/src/store/utils.ts:34-42 | the ids of all nodes, in pre-order, are unchanged |
| StoreUtils.UpdateNodesIds | frontend/src/store/utils.ts:38-40 | the same for the mapped children |
| StoreUtils.UpdateNodeInTreeFrame | frontend/src/store/utils.ts:34-42 | only nodes with the target id change, and never below a match: node by node in pre-order, every node with another id keeps its own fields, and a matching root keeps its whole subtree |
| StoreUtils.UpdateNodesFrame | frontend/src/store/utils.ts:38-40 | the same for the mapped children |
| StoreUtils.WithoutNode | frontend/src/store/utils.ts:56 | `filter(c => c.id !== targetId)`: exactly the children with another id are kept, none with the id, and the list never grows |
| StoreUtils.WithoutNodeOrder | frontend/src/store/utils.ts:56 | the kept children are in their original order (a subsequence of the old list) |
| StoreUtils.RemoveNodeFromTree | frontend/src/store/utils.ts:50-65 | `removeNodeFromTree` keeps the root's id, name and properties and whether it has a child list |
| StoreUtils.RemoveNodeDirect | frontend/src/store/utils.ts:51-58 | where a direct child has the id, the children left are exactly the old direct children with another id, untouched and in their order, and there are fewer of them |
| StoreUtils.RemoveNodeKeeps | frontend/src/store/utils.ts:50-65 | removal only takes nodes out: the nodes left, with their own fields unchanged, are the old tree's nodes in pre-order with some left out |
| StoreUtils.RemoveNodeShrinks | frontend/src/store/utils.ts:50-65 | the tree never gains nodes |
| StoreUtils.RemoveNodesShrinks | frontend/src/store/utils.ts:59-62 | the same for the mapped children |
| StoreUtils.RemoveNodeAbsent | frontend/src/store/utils.ts:50-65 | a tree with the id nowhere below the root comes back unchanged |
| StoreUtils.RemoveNodesAbsent | frontend/src/store/utils.ts:59-62 | the same for the mapped children |
| StoreUtils.FirstObjectWithId | frontend/src/store/utils.ts:142-151 | the reference search over objects: present iff some object has the id |
| StoreUtils.FindObjectRecursiveFirst | frontend/src/store/utils.ts:142-151 | `findObjectRecursive` returns the first object with the id in pre-order (object, then its children, then later siblings) |
| StoreUtils.Process | frontend/src/store/utils.ts:117-133 | the `reduce` loop computes the pruned list and the last matching object it saw, as the specification functions define them |
| StoreUtils.FindAndRemoveObject | frontend/src/store/utils.ts:114-137 | no object with the id is left at any depth; an object is returned iff one had the id, and it has the id |
| StoreUtils.RemoveObjectsGone | frontend/src/store/utils.ts:117-133 | the pruned forest holds no object with the id |
| StoreUtils.LastRemovedFound | frontend/src/store/utils.ts:115-136 | `removedObj` stays `null` iff the id is nowhere in the forest, and otherwise has the id |
| StoreUtils.RemoveObjectsOrder | frontend/src/store/utils.ts:117-133 | at the top level the surviving objects keep their order: the id list is the old one with the id filtered out |
| StoreUtils.RemoveObjectsKeep | frontend/src/store/utils.ts:117-133 | at every depth the objects left, with their own fields unchanged, are the old forest's objects in pre-order with some left out |
| StoreUtils.InForestCons | frontend/src/store/utils.ts:142-151 | the id occurs in a forest iff at its first object, below it, or in the rest |
| StoreUtils.UpdateOne | frontend/src/store/utils.ts:204-213 | one object under `updateRecursive` keeps its id |
| StoreUtils.UpdateRecursive | frontend/src/store/utils.ts:203-219 | `updateRecursive` keeps the number of objects (the frame is UpdateRecursiveFrame) |
| StoreUtils.UpdateRecursiveFound | frontend/src/store/utils.ts:203-219 | afterwards the first object with the id is the old one updated: merged with the update, or, with a mesh id and a structure, its structure updated at that node |
| StoreUtils.UpdateRecursiveIds | frontend/src/store/utils.ts:203-219 | every object at every depth keeps its id and place |
| StoreUtils.UpdateRecursiveAbsent | frontend/src/store/utils.ts:203-219 | with no object with the id, nothing changes |
| StoreUtils.UpdateRecursiveFrame | frontend/src/store/utils.ts:203-219 | only objects with the id change: object by object in pre-order, every object with another id keeps its own fields, and a match keeps its children |
| StoreUtils.UpdateRecursiveMesh | frontend/src/store/utils.ts:206-210 | with a mesh id and a structure, the update reaches the graph node: the first node with the mesh id in the matched object's structure becomes the old node with the update spread onto it |
| StoreUtils.FindChildIndex | frontend/src/store/utils.ts:75 | `children.find`: the first child with the id, or none iff no child has it |
| StoreUtils.DuplicateNodeInTree | frontend/src/store/utils.ts:73-90 | `duplicateNodeInTree` keeps the root's id, name and properties |
| StoreUtils.DuplicateNodes | frontend/src/store/utils.ts:84-87 | the mapped children keep their number |
| StoreUtils.DuplicateNodeDirect | frontend/src/store/utils.ts:74-83 | where a direct child has the id, the old children are kept and one copy of the first match is appended: fresh id, `sourceNodeId` the match's id, its name plus " (副本)", its properties, and below it a pre-order copy of its descendants with the next fresh ids |
| StoreUtils.DuplicateNodeAbsent | frontend/src/store/utils.ts:73-90 | with the id nowhere below the root, nothing is copied and no id is drawn |
| StoreUtils.DuplicateNodesAbsent | frontend/src/store/utils.ts:84-87 | the same for the mapped children |
| StoreUtils.DuplicateOne | frontend/src/store/utils.ts:225-235 | one object under `duplicateNodeRecursive` keeps its id |
| StoreUtils.DuplicateNodeRecursive | frontend/src/store/utils.ts:224-237 | `duplicateNodeRecursive` keeps the number of objects (what it does is DuplicateNodeRecursiveFound and DuplicateNodeRecursiveFrame) |
| StoreUtils.DuplicateNodeRecursiveIds | frontend/src/store/utils.ts:224-237 | every object at every depth keeps its id and place |
| StoreUtils.DuplicateNodeRecursiveAbsent | frontend/src/store/utils.ts:224-237 | with no object with the id, nothing changes and no id is drawn |
| StoreUtils.DuplicateNodeRecursiveFrame | frontend/src/store/utils.ts:224-237 | only objects with the id change: object by object in pre-order, every object with another id keeps its own fields |
| StoreUtils.DuplicateNodeRecursiveFound | frontend/src/store/utils.ts:224-237 | the first object with the id and a structure has its structure replaced by `duplicateNodeInTree` of it, drawing ids from the first fresh one |
| StoreUtils.RecordHistory | frontend/src/store/utils.ts:97-109 | the new undo stack ends with the snapshot, is at most 50 long, and is the newest part of the old stack before it |
| StoreUtils.RevertOne | frontend/src/store/utils.ts:181-194 | one object under `revertObject` keeps its id |
| StoreUtils.RevertObject | frontend/src/store/utils.ts:180-198 | `revertObject` keeps the number of objects (the frame is RevertObjectFrame) |
| StoreUtils.RevertPropsReads | frontend/src/store/utils.ts:183-193 | the reverted object reads back the saved position, rotation and scale; a material becomes transparent with the saved opacity; every other property is kept |
| StoreUtils.RevertObjectFound | frontend/src/store/utils.ts:180-198 | afterwards the first object with the saved id is the reverted form of the one found before |
| StoreUtils.RevertObjectAbsent | frontend/src/store/utils.ts:180-198 | with no object with the saved id, nothing changes |
| StoreUtils.RevertObjectFrame | frontend/src/store/utils.ts:180-198 | only objects with the saved id change: object by object in pre-order, every object with another id keeps its own fields |
| StoreUtils.RefreshIds | frontend/src/store/utils.ts:256-264 | `refreshIds` keeps the object's own id |
| StoreUtils.RefreshChildren | frontend/src/store/utils.ts:258-262 | the refreshed children keep their number |
| StoreUtils.RefreshIdsShape | frontend/src/store/utils.ts:256-264 | only ids change: every descendant, in pre-order, takes the next fresh id and keeps everything else, and one id is drawn per descendant |
| StoreUtils.RefreshChildShape | frontend/src/store/utils.ts:258-261 | one child takes an id, then its descendants take the following ones |
| StoreUtils.RefreshChildrenShape | frontend/src/store/utils.ts:258-262 | the same for the whole list of children |
| StoreUtils.SetDeep | frontend/src/store/utils.ts:269-278 | `setDeepValue` on an object succeeds with an object, and fails with a TypeError only where it must step into a non-object |
| StoreUtils.Nest | frontend/src/store/utils.ts:272-277 | the object the setter builds below a missing key: a single key holding the rest |
| StoreUtils.SetDeepGet | frontend/src/store/utils.ts:269-278 | after the setter, following the path reads the value back |
| StoreUtils.SetDeepOthers | frontend/src/store/utils.ts:269-278 | properties other than the path's first key are untouched |
| StoreUtils.SetDeepFresh | frontend/src/store/utils.ts:272-277 | on an empty object every intermediate is created |
| StoreUtils.SetDeepFalsy | frontend/src/store/utils.ts:274 | a falsy intermediate is replaced by `{}`, so the path below it is built fresh |
| StoreUtils.SetDeepOnObject | frontend/src/store/utils.ts:329 | the setter on a scene object changes only its plain properties, and the path reads back the value |
| StoreUtils.SetDeepOnNode | frontend/src/store/utils.ts:323-324 | the setter on a graph node changes only its plain properties, and the path reads back the value |
| StoreUtils.ParseBindingKey | frontend/src/store/utils.ts:310-318 | a key without a colon is all path; with one, the mesh id is before the first colon and the path up to the next |
| StoreUtils.ParseBindingKeyJoin | frontend/src/store/utils.ts:310-318 | `mesh:path` parses back into its parts when neither holds a colon |
| StoreUtils.BindingValue | frontend/src/store/utils.ts:290-308 | a value is delivered only by an enabled binding whose source has a defined value at the tag; without an expression it is that value |
| StoreUtils.ApplyBinding | frontend/src/store/utils.ts:289-332 | a skipped binding leaves the object as it is; an applied one keeps its id and children; what it writes is stated by `ApplyBindingWrites` (plain key) and `ApplyBindingWritesNode` (`mesh:path` key) |
| StoreUtils.ApplyEntries | frontend/src/store/utils.ts:289-332 | the entries, in order, keep the object's id and children |
| StoreUtils.ApplyToObject | frontend/src/store/utils.ts:284-344 | one object keeps its id and the number of its children |
| StoreUtils.ApplyBindingsToObjects | frontend/src/store/utils.ts:283-345 | the forest keeps its number of objects |
| StoreUtils.ApplyBindingsIds | frontend/src/store/utils.ts:283-345 | every object at every depth keeps its id and place |
| StoreUtils.ApplyEntriesInert | frontend/src/store/utils.ts:288-333 | with no enabled binding the object is unchanged |
| StoreUtils.ApplyBindingsInert | frontend/src/store/utils.ts:283-345 | with no enabled binding anywhere in the forest, nothing changes |
| StoreUtils.ApplyBindingWrites | frontend/src/store/utils.ts:320-331 | an enabled binding on a plain property writes its value (or its expression's result) at its path |
| StoreUtils.ApplyBindingWritesNode | frontend/src/store/utils.ts:311-326 | an enabled binding keyed `mesh:path`, with a node `mesh` in the structure: the first node with that id reads the value back at the path and keeps its name and its other properties; only nodes with that id change, and the object keeps everything but its structure |
| EditorStore.Record | frontend/src/store/utils.ts:97-109 | an edit pushes the current snapshot onto the undo stack (at most 50 kept) and empties the redo stack |
| EditorStore.Undone | frontend/src/store/index.ts:383-403 | `undo` on an empty stack changes nothing; otherwise the last undo snapshot becomes current, the rest of the undo stack stays, and the current snapshot goes to the front of the redo stack |
| EditorStore.Redone | frontend/src/store/index.ts:408-428 | `redo` on an empty stack changes nothing; otherwise the first redo snapshot becomes current, the rest of the redo stack stays, and the current snapshot goes to the end of the undo stack |
| EditorStore.RedoUndo | frontend/src/store/index.ts:383-428 | redo after undo restores the state and both stacks |
| EditorStore.UndoRedo | frontend/src/store/index.ts:383-428 | undo after redo restores the state and both stacks |
| EditorStore.UndoRecord | frontend/src/store/index.ts:383-403 | undo right after an edit brings back the state before it, with the edit the only redo step |
| EditorStore.BoundedKept | frontend/src/store/utils.ts:104 | edits, undo and redo keep the two stacks together at most 50 snapshots long |
| EditorStore.TypeLabel | frontend/src/constants/index.ts:163-176 | the label of an object type, `未知对象` for an unknown type; never empty |
| EditorStore.NewObjectFacts | frontend/src/store/index.ts:120-142 | the new object has the drawn id, the url, the name `<type label> <count>`, is visible, is `loading` iff it has a url, and casts shadows iff it is a light |
| EditorStore.SwitchResetsPlayer | frontend/src/store/index.ts:97-103 | switching the timeline's object or animation stops playback and rewinds to 0 |
| EditorStore.CloseReverts | frontend/src/store/index.ts:87-95 | closing the timeline while it edits an object clears the edited object, animation and saved state, and reverts the edited object to the saved transform and opacity |
| EditorStore.SwitchSavesOriginal | frontend/src/store/index.ts:70-84 | starting to edit an object that has a material saves its id, position, rotation and scale, and the opacity of its (first) material |
| EditorStore.TimelineChanges | frontend/src/store/index.ts:59-103 | the rules' sequential code computes the reverted objects, the saved-state change and whether the timeline closes, as the specification functions define them |
| EditorStore.TimelineStep | frontend/src/store/index.ts:59-111 | `setState`'s objects are the patch's when it gives some, else the reverted ones; the timeline fields are the patch followed by the forced changes |
| EditorStore.MergeConfig | frontend/src/store/index.ts:325 | `{...sceneConfig, ...updates}`: each background field is the update's when given, the old one otherwise |
| EditorStore.WithUpdated | frontend/src/store/index.ts:156 | the `updated` flag is always written, and is `true` when the update does not give it |
| EditorStore.WithLoadStatus | frontend/src/store/index.ts:176-180 | exactly the top-level objects with the id get the new `loadStatus` |
| EditorStore.FindTop | frontend/src/store/index.ts:173 | `objects.find` on the top level: a top-level object with the id, or none iff there is none |
| EditorStore.UpdateTemplates | frontend/src/store/index.ts:437-439 | exactly the templates with the id are merged with the update; order and length kept |
| EditorStore.RemoveTemplates | frontend/src/store/index.ts:441-443 | the templates with the id are gone, every other template stays, nothing is added |
| EditorStore.RemoveTemplatesOne | frontend/src/store/index.ts:441-443 | one template is kept iff its id differs |
| EditorStore.RemoveTemplatesAppend | frontend/src/store/index.ts:441-443 | filtering a joined list is filtering each part and joining: the kept templates stay in their order |
| EditorStore.PlainFields | frontend/src/store/index.ts:369-372 | the entries of a parsed `SET_PROPERTY` object whose keys are not typed object fields: none of them is typed, and there are no more of them than entries |
| EditorStore.PlainFieldsGet | frontend/src/store/index.ts:369-372 | every plain key reads the same in those entries as in the whole object |
| EditorStore.PatchOfReads | frontend/src/store/index.ts:369-372 | the update read from a parsed object: without typed keys it is all plain properties; otherwise each plain key reads as in the object, and each typed key it gives (`name`, `url`, `htmlLabel`, `activeAnimations`, `activeCustomAnimationId`) holds the object's value, no other typed key being set |
| EditorStore.Store.RecordEdit | frontend/src/store/utils.ts:97-109 | the undo stack gets the current snapshot (50 kept), the redo stack is emptied, the stack bound holds |
| EditorStore.Store.SetState | frontend/src/store/index.ts:59-111 | each plain field takes the patch's value when given; objects and timeline fields follow the timeline rules |
| EditorStore.Store.SetPlainFields | frontend/src/store/index.ts:105-110 | the plain fields take the patch's values when given, and keep theirs otherwise |
| EditorStore.Store.SetTimelineFields | frontend/src/store/index.ts:59-111 | objects and timeline fields after the timeline rules |
| EditorStore.Store.AddObject | frontend/src/store/index.ts:116-150 | the new object is appended with a fresh id and selected (no mesh); an undo step is recorded |
| EditorStore.Store.UpdateObject | frontend/src/store/index.ts:155-166 | the objects are updated with the whole update plus `updated` (spread onto the graph node when a mesh id is given); no undo step while the timeline edits this object, one otherwise |
| EditorStore.Store.SetLoadStatus | frontend/src/store/index.ts:171-181 | nothing changes when the first top-level object with the id already has the status; otherwise every top-level object with the id gets it |
| EditorStore.Store.RemoveObject | frontend/src/store/index.ts:186-205 | with a mesh id, `structure: undefined` is merged into the graph node with that id (the object keeps its structure) and a selected mesh with that id is deselected; otherwise the object leaves the forest at every depth and the selection is cleared if it was selected; an undo step either way |
| EditorStore.Store.DuplicateObject | frontend/src/store/index.ts:210-237 | an unknown id changes nothing; with a mesh id and a structure the node is duplicated inside it; otherwise the copy of `CopyOfObject` (the original with fresh ids, see `CopyOfObjectShape`) is appended and selected; an undo step when the object exists |
| EditorStore.Store.ToggleRoaming | frontend/src/store/index.ts:285-302 | roaming starts only with two or more waypoints, at waypoint 0, its clock set back by the first travel time; stopping always works |
| EditorStore.Store.UpdateSceneConfig | frontend/src/store/index.ts:320-327 | the configuration is merged with the update and an undo step is recorded |
| EditorStore.Store.ExecuteAction | frontend/src/store/index.ts:332-378 | no target, an unknown target or an unknown action changes nothing; `PLAY_ANIMATION` toggles the clip list between `[]` and `[value]`; `PLAY_CUSTOM_ANIMATION` toggles the custom animation and its start time; both go through `updateObject` with the mesh target; `TOGGLE_VISIBLE` negates the visibility of the object, or of the named mesh when it exists; `SET_PROPERTY` applies the update read from the (parsed) value, and a parse failure, a null value or an update the model cannot express changes nothing |
| EditorStore.Store.PlayAnimationOn | frontend/src/store/index.ts:342-349 | the clip list becomes `[]` when the named clip was among the playing ones or no clip is named, and exactly `[value]` otherwise, written through `updateObject` with the mesh target (onto the graph node when one is named) |
| EditorStore.Store.PlayCustomAnimationOn | frontend/src/store/index.ts:350-358 | the custom animation that was playing is stopped (id `null`, start time removed); any other is started (its id, start time -1); written through `updateObject` with the mesh target |
| EditorStore.Store.ToggleVisibleOn | frontend/src/store/index.ts:359-368 | with a mesh target and a structure the named node's `visible` is negated, and nothing happens when there is no such node; otherwise the object's own `visible` is negated |
| EditorStore.Store.SetPropertyOn | frontend/src/store/index.ts:369-376 | a string value is parsed first; a parse failure, a null value or an update the model cannot express changes nothing (history included); any other value is read into an update (its plain properties and the typed keys events set) and applied through `updateObject` |
| EditorStore.Store.Undo | frontend/src/store/index.ts:383-403 | the state and stacks become those of the `undo` function |
| EditorStore.Store.Redo | frontend/src/store/index.ts:408-428 | the state and stacks become those of the `redo` function |
| EditorStore.Store.AddLabelTemplate | frontend/src/store/index.ts:433-435 | the template is appended |
| EditorStore.Store.UpdateLabelTemplate | frontend/src/store/index.ts:437-439 | the templates with the id are merged with the update |
| EditorStore.Store.RemoveLabelTemplate | frontend/src/store/index.ts:441-443 | the templates with the id are removed |
| EditorStore.Store.UpdateDataSourceValues | frontend/src/store/index.ts:456-461 | the source's values are replaced, the other sources kept |
| EditorStore.CopyOfObject | frontend/src/store/index.ts:222-229 | the copy has a fresh id, the original as its source and the name plus " (副本)" |
| EditorStore.CopyOfObjectShape | frontend/src/store/index.ts:222-229 | the copy is the original except for its fresh id, the original as its source and the suffixed name; its structure, when the original has one, is the original's node by node with the next fresh ids; its descendants, in pre-order, are the original's with the ids after those, every other field kept |
| EditorStore.CopyTop | frontend/src/store/index.ts:222-228 | before `refreshIds`: the original with a fresh id, itself as the source and the suffixed name; its structure, when it has one, is `cloneNode` of the original's, node by node with the ids from `mint(k + 1)` on |
| EditorStore.CopyOfObjectRefreshes | frontend/src/store/index.ts:227-229 | `refreshIds` runs on that copy and draws its ids right after those the structure took |
| EditorStore.Store.constructor | frontend/src/store/index.ts:48-49 | the store starts from the initial state: nothing selected, empty history, no roaming, a closed timeline, no templates and no data values |
| TreeUtils.CheckPathLocked | frontend/src/utils/index.ts:237-258 | no node: not found and not locked |
| TreeUtils.CheckNode | frontend/src/utils/index.ts:237-258 | never locked without being found; a locked node that finds the target reports it locked |
| TreeUtils.CheckChildren | frontend/src/utils/index.ts:245-255 | the loop over the children never reports locked without finding |
| TreeUtils.CheckNodeFound | frontend/src/utils/index.ts:237-258 | `found` holds exactly when some node of the tree has the id |
| TreeUtils.CheckChildrenFound | frontend/src/utils/index.ts:245-255 | the same for a list of children |
| TreeUtils.CheckNodePath | frontend/src/utils/index.ts:237-258 | when found, there is a parent-to-child path from the node to the target, and `pathLocked` holds iff some node on it is locked (lock inheritance) |
| TreeUtils.CheckChildrenPath | frontend/src/utils/index.ts:245-255 | the same, starting at one of the children |
| TreeUtils.CheckNodeUnlocked | frontend/src/utils/index.ts:237-258 | in a tree with no locked node, nothing is reported locked |
| TreeUtils.CheckChildrenUnlocked | frontend/src/utils/index.ts:245-255 | the same for a list of children |
| TreeUtils.FindNodeInTreeNull | frontend/src/utils/index.ts:289-299 | `findNodeInTree` gives `null` iff no node has the id, and otherwise a node with the id |
| TreeUtils.FindObjectRecursiveNull | frontend/src/utils/index.ts:303-313 | `findObjectRecursive` gives `null` iff no object at any depth has the id, and otherwise an object with the id |
| TreeUtils.ActiveIn | frontend/src/utils/index.ts:321-326 | the pairs for one object are exactly its animations that are active or play automatically |
| TreeUtils.ActiveListMembers | frontend/src/utils/index.ts:318-331 | a pair is listed iff its object is in the list and its animation is one of that object's playing ones |
| TreeUtils.ActiveOfObject | frontend/src/utils/index.ts:321-326 | the inner loop collects the playing animations of one object, in order |
| TreeUtils.FindActiveAnimations | frontend/src/utils/index.ts:318-331 | as written: the pairs of the top-level objects only (the recursive call's result is dropped) |
| TreeUtils.DeepStep | frontend/src/utils/index.ts:318-331 | scanning one more object adds its pairs, then its subtree's |
| TreeUtils.FindActiveAnimationsDeep | frontend/src/utils/index.ts:314-331 | as documented: the pairs of every object at every depth, in pre-order |
| TreeUtils.NestedAnimationMissed | frontend/src/utils/index.ts:328 | a forest whose only auto-playing animation is on a child: the function as written returns nothing, the deep scan returns one pair |
| DataTags.FullKey | frontend/src/utils/utils.ts:26 | under a prefix the key is `prefix.key` |
| DataTags.Entries | frontend/src/utils/utils.ts:25-27 | every value `for ... in` visits is part of the visited value, so the walk ends; an object is visited in own-key order, each key with `obj[key]` (an array by its positions) |
| Json.OwnKeys | frontend/src/utils/utils.ts:25 | `for ... in` over an object visits every key it has, and each key once |
| Json.OwnKeysOrder | frontend/src/utils/utils.ts:25 | keys that are array indices come before all others, in strictly ascending numeric order; the other keys come in the order of their first entry |
| Json.OwnEntries | frontend/src/utils/utils.ts:25-27 | the visited entries have the own keys in that order, and each is an entry the object holds |
| Json.OwnEntriesGet | frontend/src/utils/utils.ts:27 | `obj[key]` reads the same in the visited entries as in the object: the value last written for the key, or nothing |
| Json.OwnEntriesPlain | frontend/src/utils/utils.ts:25 | an object whose keys are distinct and none an array index is visited exactly in its written order |
| Json.InsertByValue | frontend/src/utils/utils.ts:25 | placing an index key keeps the index keys in ascending numeric order, adds exactly that key, and keeps them distinct |
| DataTags.Leaves | frontend/src/utils/utils.ts:23 | a falsy response gives no tags |
| DataTags.FindTag | frontend/src/utils/utils.ts:34 | `existingTags.find` by key: a tag with the key, or none iff none has it |
| DataTags.Shown | frontend/src/utils/utils.ts:39 | an array value is stored as `Array(n)`, any other value as it is |
| DataTags.TagsOf | frontend/src/utils/utils.ts:34-40 | one tag per leaf; the id counter never goes back |
| DataTags.FlattenStep | frontend/src/utils/utils.ts:25-42 | visiting one more entry appends that entry's tags, drawing ids from where the earlier ones stopped |
| DataTags.LeafTag | frontend/src/utils/utils.ts:34-40 | the record pushed for a value that is not a plain object is that leaf's tag: a known non-empty id and label are kept, otherwise a fresh id is drawn and the key is the label |
| DataTags.FlattenEntry | frontend/src/utils/utils.ts:26-41 | one pass of the loop: a nested object concatenates its own tags, any other value pushes its one tag, and the tags so far become those of the entries visited including this one |
| DataTags.FlattenDataSourceResponse | frontend/src/utils/utils.ts:21-44 | the loop returns the tags of the response's leaves in `for ... in` order (own-key order at every level), with the ids drawn in that order |
| DataTags.TagsOfFacts | frontend/src/utils/utils.ts:34-40 | each tag has the leaf's dotted key and shown value; an existing tag with that key keeps its (non-empty) id and label; a new key is its own label |
| DataTags.TagsOfDraws | frontend/src/utils/utils.ts:36 | at most one new id per leaf, and none when every key already has a tag with an id |
| DataTags.LeavesNotObjects | frontend/src/utils/utils.ts:29-31 | no plain object is ever tagged: they are descended into |
| DataTags.LeavesArePaths | frontend/src/utils/utils.ts:21-44 | every tag's key is the dotted path of property names that leads to its value |
| DataTags.FlatResponse | frontend/src/utils/utils.ts:21-44 | a response without nested objects gives one leaf per own key, in own-key order, keyed by the key under the prefix and holding `obj[key]` |
| DataTags.PlainResponse | frontend/src/utils/utils.ts:21-44 | with distinct keys that are not array indices, the leaves are the properties in written order |
| DataTags.IndexKeyFirst | frontend/src/utils/utils.ts:25 | `{"b": 1, "2": 3}` gives the leaf `2` before the leaf `b` |
| DataTags.RepeatedKeyOnce | frontend/src/utils/utils.ts:25-27 | `{"a": 1, "a": 3}` gives one leaf, `a` with 3 |
| DataTags.NestedResponse | frontend/src/utils/utils.ts:29-31 | a nested object's tags are keyed under the outer property name |
| ApiTemplate.NumberOf | frontend/src/api/template.ts:27 | `Number(id)` on the ids the editor holds (decimal strings of server ids and `template_…` ids): a (trimmed) decimal digit string is its value, blank is 0, and a temporary id is `NaN` |
| ApiTemplate.ParseFields | frontend/src/api/template.ts:16 | the loaded field list holds no empty name and no comma |
| ApiTemplate.NonEmptyFrom | frontend/src/api/template.ts:16 | `filter(Boolean)` keeps only pieces of its input |
| ApiTemplate.FromServer | frontend/src/api/template.ts:13-17 | a loaded template keeps name, html and css; missing or empty fields load as no fields |
| ApiTemplate.GetTemplates | frontend/src/api/template.ts:11-18 | a missing list loads as no templates; otherwise one template per row, converted |
| ApiTemplate.ToServer | frontend/src/api/template.ts:25-29 | the body sent keeps name, html and css |
| ApiTemplate.FieldsRoundTrip | frontend/src/api/template.ts:16-34 | a field list with no empty or comma-holding name survives join-then-split unchanged |
| ApiTemplate.EmptyFieldDropped | frontend/src/api/template.ts:16-34 | an empty field name does not survive the round trip |
| ApiTemplate.NumberOfNat | frontend/src/api/template.ts:15-27 | `Number(String(n))` is `n` |
| ApiTemplate.IdRoundTrip | frontend/src/api/template.ts:15-27 | a loaded template is sent back with its numeric server id |
| ApiTemplate.TemporaryIdUndefined | frontend/src/api/template.ts:27 | a temporary `template_...` id is sent as `undefined`, so the server inserts a new row |
| ApiProject.ThumbnailUrl | frontend/src/api/project.ts:33 | an uploaded cover gets the server's base url in front; a missing or empty one becomes the placeholder image; any other is kept |
| ApiProject.TagsOf | frontend/src/api/project.ts:34 | no tags or an empty string give `[]`; a list is kept; a string is split at commas, empty pieces included |
| ApiProject.PageRecord | frontend/src/api/project.ts:30-35 | the fields other than id, thumbnail and tags pass through unchanged |
| ApiProject.GetProjects | frontend/src/api/project.ts:26-37 | a page without records gives none; otherwise one project per record |
| ApiProject.GetById | frontend/src/api/project.ts:72-80 | the fields other than id, thumbnail and tags pass through unchanged |
| ApiProject.SameNormalisation | frontend/src/api/project.ts:30-35 | the list and the detail view normalise a project identically |
| ApiProject.EmptyTagKept | frontend/src/api/project.ts:34 | an empty tag piece is kept (`"a,,b"` gives three tags) |
| ApiProject.TagsRoundTrip | frontend/src/api/project.ts:34 | comma-free tags joined by commas load back as the same list |
| ApiAsset.QueryParams | frontend/src/api/asset.ts:45-53 | the search text goes as `name` and the category as it is; a missing or zero page becomes 1 and a missing or zero size 12 |
| ApiAsset.AssetThumbnail | frontend/src/api/asset.ts:61 | a missing or empty cover stays so; an `http...` one is kept; any other gets the base url in front |
| ApiAsset.AssetRecord | frontend/src/api/asset.ts:57-62 | a record keeps its url and other fields, its id becomes a string and its cover is made absolute |
| ApiAsset.QueryRecords | frontend/src/api/asset.ts:55-63 | a page without records gives none; otherwise one asset per record, converted |
| ApiAsset.ThumbnailIdempotent | frontend/src/api/asset.ts:61 | with an absolute base url, making a cover absolute twice is the same as once |
| ApiAsset.UploadParts | frontend/src/api/asset.ts:72-86 | the upload form has `file`, `name`, `categoryId`, then `thumbnail` exactly when a cover is given |
| TemplatePreview.Placeholder | frontend/src/hooks/useTemplatePreview.ts:12 | the placeholder of a field is `{{field}}` |
| TemplatePreview.SelfSubs | frontend/src/hooks/useTemplatePreview.ts:11-13 | each field is replaced by its own name, fields in order |
| TemplatePreview.PreviewHtml | frontend/src/hooks/useTemplatePreview.ts:7-18 | the loop computes the preview: empty for an empty html, otherwise every field's placeholders replaced by its name, field after field |
| TemplatePreview.FillAllAbsent | frontend/src/hooks/useTemplatePreview.ts:11-13 | substitutions whose placeholders do not occur leave the html unchanged |
| TemplatePreview.PreviewAbsent | frontend/src/hooks/useTemplatePreview.ts:7-18 | a template that mentions none of its fields previews as itself |
| TemplatePreview.ReplaceEveryPlaceholder | frontend/src/hooks/useTemplatePreview.ts:12 | the global replace changes every occurrence of the placeholder and nothing else |
| TemplatePreview.PreviewOneField | frontend/src/hooks/useTemplatePreview.ts:7-18 | a one-field template previews with the field's name at every placeholder and the rest kept |
| ObjectDataBinding.Triple | frontend/src/hooks/useObjectDataBinding.ts:63-65 | a transform value becomes three entries, each the given one or 0 where it is missing, `null` or `undefined` |
| ObjectDataBinding.MaterialKey | frontend/src/hooks/useObjectDataBinding.ts:67-74 | exactly the eight listed `material.<key>` paths are material paths |
| ObjectDataBinding.Dispatch | frontend/src/hooks/useObjectDataBinding.ts:63-75 | position, rotation and scale take an array as a triple; visible and intensity take the value; a material path writes that key into the node's (else the object's) material; every other path issues nothing |
| ObjectDataBinding.BindingUpdate | frontend/src/hooks/useObjectDataBinding.ts:31-75 | a disabled binding, an unknown source or an undefined value issues nothing; a call targets the object and the key's mesh and carries the dispatched update |
| ObjectDataBinding.MissingNodeNoUpdate | frontend/src/hooks/useObjectDataBinding.ts:58-62 | a key aimed at a node the structure does not hold issues nothing |
| ObjectDataBinding.MaterialMerge | frontend/src/hooks/useObjectDataBinding.ts:67-74 | the material written holds the new value at its key and the base material's value at every other key |
| ObjectDataBinding.UpdatesOf | frontend/src/hooks/useObjectDataBinding.ts:31-76 | at most one call per entry, each for this object |
| ObjectDataBinding.DisabledNoUpdates | frontend/src/hooks/useObjectDataBinding.ts:32 | switched-off bindings issue no call |
| ObjectDataBinding.UpdatesFromLiveBindings | frontend/src/hooks/useObjectDataBinding.ts:31-76 | every call comes from an enabled binding on a known source |
| ObjectDataBinding.ApplyDataBindings | frontend/src/hooks/useObjectDataBinding.ts:30-77 | the loop issues the entries' calls, in order; none without bindings |
| ObjectDataBinding.FindTemplate | frontend/src/hooks/useObjectDataBinding.ts:85 | `labelTemplates.find`: the first template with the id, none iff there is none |
| ObjectDataBinding.FieldText | frontend/src/hooks/useObjectDataBinding.ts:89-113 | a literal mapping gives its text, `null` gives `""`, a binding without a value gives `[tagKey]`, one with a value and no expression gives `String(value)`, one with an expression gives `String` of the expression's result, or `Error` when it throws |
| ObjectDataBinding.LabelSubs | frontend/src/hooks/useObjectDataBinding.ts:88-116 | each mapped field is paired with its text, in entry order |
| ObjectDataBinding.LabelHtml | frontend/src/hooks/useObjectDataBinding.ts:84-86 | a label is produced iff the object has a label binding whose template exists |
| ObjectDataBinding.ApplyLabelBinding | frontend/src/hooks/useObjectDataBinding.ts:84-121 | the loop fills the template; an update of `htmlLabel` is issued iff the filled html differs from the current label |
| ObjectDataBinding.LabelUnchangedNoUpdate | frontend/src/hooks/useObjectDataBinding.ts:115-121 | a template that mentions none of the mapped fields and already shows its html needs no update |
| ObjectDataBinding.LiteralFieldFilled | frontend/src/hooks/useObjectDataBinding.ts:91-115 | a literal mapping fills every placeholder of its field with its text |
| TreeItem.RenameOf | frontend/src/hooks/useTreeItem.ts:42-47 | a rename is asked for iff the trimmed draft is non-empty and differs from the name, and then it is the trimmed draft |
| TreeItem.RenameStable | frontend/src/hooks/useTreeItem.ts:42-47 | submitting the new name again, once it is the row's name, asks for nothing |
| TreeItem.TreeItem.constructor | frontend/src/hooks/useTreeItem.ts:18-20 | a row starts not editing, with the draft equal to its name |
| TreeItem.TreeItem.SetEditingName | frontend/src/hooks/useTreeItem.ts:20 | typing replaces the draft |
| TreeItem.TreeItem.StartEditing | frontend/src/hooks/useTreeItem.ts:25-29 | editing starts with the draft reset to the name |
| TreeItem.TreeItem.CancelEditing | frontend/src/hooks/useTreeItem.ts:34-37 | editing ends with the draft restored |
| TreeItem.TreeItem.SubmitRename | frontend/src/hooks/useTreeItem.ts:42-49 | the update sent is the rename of the draft, if any; editing always ends and the draft is kept |
| TreeItem.TreeItem.HandleKeyDown | frontend/src/hooks/useTreeItem.ts:54-60 | Enter submits, Escape cancels, any other key changes nothing |
| InteractionEvents.NewEvent | frontend/src/hooks/useInteractionEvents.ts:22-28 | the new action plays an animation on this object, triggered from the selected mesh, with an empty value |
| InteractionEvents.AddEvent | frontend/src/hooks/useInteractionEvents.ts:21-35 | the click list gains the new action at its end and is otherwise unchanged; the other event keys are kept |
| InteractionEvents.Without | frontend/src/hooks/useInteractionEvents.ts:45 | the filtered list has no action with the id and keeps every other one |
| InteractionEvents.RemoveEvent | frontend/src/hooks/useInteractionEvents.ts:41-48 | the click list loses the actions with the id; the other event keys are kept |
| InteractionEvents.UpdateIn | frontend/src/hooks/useInteractionEvents.ts:59 | exactly the actions with the id are merged with the update, order and length kept |
| InteractionEvents.UpdateEvent | frontend/src/hooks/useInteractionEvents.ts:55-62 | the click list is updated at the id; the other event keys are kept |
| InteractionEvents.RemoveUndoesAdd | frontend/src/hooks/useInteractionEvents.ts:21-48 | removing a just-added action by its (new) id gives back the old list |
| InteractionEvents.WithoutAbsent | frontend/src/hooks/useInteractionEvents.ts:45 | removing an id no action has changes nothing |
| InteractionEvents.RemoveIdempotent | frontend/src/hooks/useInteractionEvents.ts:45 | removing twice is removing once |
| InteractionEvents.WithoutAppend | frontend/src/hooks/useInteractionEvents.ts:45 | survivors keep their order |
| InteractionEvents.RemoveAfterUpdate | frontend/src/hooks/useInteractionEvents.ts:41-62 | an edit that keeps the id, then a removal of that id, is the removal alone |
| InteractionEvents.UpdateAbsent | frontend/src/hooks/useInteractionEvents.ts:59 | editing an id no action has changes nothing |
| TransformUpdate.Default | frontend/src/hooks/useTransformUpdate.ts:28-35 | a missing vector starts as `[1, 1, 1]` for scale and `[0, 0, 0]` otherwise |
| TransformUpdate.HandleTransformChange | frontend/src/hooks/useTransformUpdate.ts:22-40 | the update names the field and holds three entries: the new value on the axis, the current (or default) value on the other two |
| TimelineRecorder.Insert | frontend/src/hooks/useTimelineRecorder.ts:89-90 | inserting adds exactly the new keyframe: one longer, same keyframes plus it |
| TimelineRecorder.InsertSorted | frontend/src/hooks/useTimelineRecorder.ts:89-90 | insertion into keyframes in time order keeps them in time order |
| TimelineRecorder.SortByTime | frontend/src/hooks/useTimelineRecorder.ts:90 | the sort is a permutation |
| TimelineRecorder.SortByTimeSorted | frontend/src/hooks/useTimelineRecorder.ts:90 | the sort's result is in time order |
| TimelineRecorder.InsertAtEnd | frontend/src/hooks/useTimelineRecorder.ts:89-90 | a keyframe not earlier than the last goes at the end |
| TimelineRecorder.SortByTimeOfSorted | frontend/src/hooks/useTimelineRecorder.ts:90 | sorting keyframes already in order changes nothing (the sort is stable) |
| TimelineRecorder.FindTrack | frontend/src/hooks/useTimelineRecorder.ts:73 | `findIndex`: the first track for the target, or -1 iff there is none |
| TimelineRecorder.FindNearKey | frontend/src/hooks/useTimelineRecorder.ts:85 | `findIndex`: the first keyframe within 0.005 of the time, or -1 iff none is |
| TimelineRecorder.MergeKey | frontend/src/hooks/useTimelineRecorder.ts:87 | the merged keyframe has the new time and every field the new keyframe gives |
| TimelineRecorder.WithTracks | frontend/src/hooks/useTimelineRecorder.ts:97-99 | only the animation with the id gets the new tracks; a missing list stays missing |
| TimelineRecorder.RecordKeyMerges | frontend/src/hooks/useTimelineRecorder.ts:85-87 | a keyframe within the merge window of an existing one overwrites the first such one: the count stays and no other keyframe changes |
| TimelineRecorder.RecordKeyInserts | frontend/src/hooks/useTimelineRecorder.ts:88-91 | a keyframe outside every window is added: one more keyframe, the old ones plus it, in time order |
| TimelineRecorder.RecordKeyIntoSorted | frontend/src/hooks/useTimelineRecorder.ts:88-91 | into sorted keyframes the new one goes after every keyframe not later than it |
| TimelineRecorder.NewTrackAppended | frontend/src/hooks/useTimelineRecorder.ts:75-80 | without a track for the target, one new track holding just the new keyframe is appended |
| TimelineRecorder.ExistingTrackEdited | frontend/src/hooks/useTimelineRecorder.ts:81-94 | with a track for the target, only the first such track changes, and only its keyframes |
| TimelineRecorder.RecordCurrentState | frontend/src/hooks/useTimelineRecorder.ts:56-100 | no scene, animation, object or node issues nothing; otherwise one update of the object's animations with the recorded tracks |
| AnimationTimeline.WithoutIndex | frontend/src/components/AnimationTimeline/index.tsx:96 | filtering out one position removes exactly that keyframe: those before stay, those after shift down by one |
| AnimationTimeline.PatchKey | frontend/src/components/AnimationTimeline/index.tsx:107 | `{...keyframe, ...updates}`: the time and the given fields are the update's, the other fields stay |
| AnimationTimeline.KeyRemoved | frontend/src/components/AnimationTimeline/index.tsx:94-97 | only the edited track changes, and only by losing that keyframe |
| AnimationTimeline.KeyUpdated | frontend/src/components/AnimationTimeline/index.tsx:104-109 | only the edited keyframe of the edited track changes, by the update |
| AnimationTimeline.OnRemove | frontend/src/components/AnimationTimeline/index.tsx:88-102 | on an open keyframe, the call writes the tracks with the keyframe removed into the edited animation |
| AnimationTimeline.OnUpdate | frontend/src/components/AnimationTimeline/index.tsx:88-113 | on an open keyframe, the call writes the tracks with the keyframe updated into the edited animation |
| AnimationTimeline.RemoveOneKey | frontend/src/components/AnimationTimeline/index.tsx:94-97 | removing takes exactly one keyframe out of the animation |
| AnimationTimeline.UpdateKeepsCount | frontend/src/components/AnimationTimeline/index.tsx:104-109 | editing keeps the animation's number of keyframes |
| AnimationTimeline.KeyCountUpdate | frontend/src/components/AnimationTimeline/index.tsx:94-109 | replacing one track changes the animation's keyframe total by exactly the change in that track |
| DataBindingRunner.BindingIds | frontend/src/components/DataBindingRunner/index.tsx:11-15 | a source id is collected from the bindings exactly when some binding is enabled, names it and it is not 0 |
| DataBindingRunner.MappingIds | frontend/src/components/DataBindingRunner/index.tsx:18-22 | a source id is collected from the label fields exactly when some field is bound to it and it is not 0, whether or not the field is enabled |
| DataBindingRunner.SourceIds | frontend/src/components/DataBindingRunner/index.tsx:8-19 | the id 0 is never a collected source, because of the truthiness tests |
| DataBindingRunner.SourceIdsAppend | frontend/src/components/DataBindingRunner/index.tsx:9 | the sources of two concatenated forests are the union of each forest's sources |
| DataBindingRunner.NestedSourcesCollected | frontend/src/components/DataBindingRunner/index.tsx:24 | a source named by an object at any depth of the forest is collected |
| DataBindingRunner.AddBindingIds | frontend/src/components/DataBindingRunner/index.tsx:11-15 | the first loop adds exactly the enabled bindings' sources to the accumulator |
| DataBindingRunner.AddMappingIds | frontend/src/components/DataBindingRunner/index.tsx:18-22 | the second loop adds exactly the bound label fields' sources to the accumulator |
| DataBindingRunner.GetActiveSourceIds | frontend/src/components/DataBindingRunner/index.tsx:8-27 | the result is the accumulator plus every source the forest names; it holds the accumulator and gains no 0 |
| DataBindingModal.SourceKey | frontend/src/components/DataBindingModal/index.tsx:71 | a source node's key is `source-<id>`, which starts with a letter |
| DataBindingModal.LeafKey | frontend/src/components/DataBindingModal/index.tsx:75 | a tag leaf's key is `<sourceId>\|<tagKey>`, which starts with a digit or a minus sign |
| DataBindingModal.KeysDistinct | frontend/src/components/DataBindingModal/index.tsx:71-75 | no source key equals any tag leaf's key |
| DataBindingModal.TagLeaf | frontend/src/components/DataBindingModal/index.tsx:73-81 | a tag's leaf is titled by its label, or by its key when the label is empty, and carries its source and tag |
| DataBindingModal.TreeData | frontend/src/components/DataBindingModal/index.tsx:66-84 | one node per source, in order, titled by its name, with one leaf per parsed tag (none when the source has no config) |
| DataBindingModal.Filter | frontend/src/components/DataBindingModal/index.tsx:89-98 | filtering keeps no more nodes than it was given, and every kept node matches or keeps children |
| DataBindingModal.FilteredTreeData | frontend/src/components/DataBindingModal/index.tsx:87-88 | an empty search returns the tree unchanged |
| DataBindingModal.FilterNonEmpty | frontend/src/components/DataBindingModal/index.tsx:89-97 | the filter keeps something exactly when some title at some depth matches |
| DataBindingModal.FilterOne | frontend/src/components/DataBindingModal/index.tsx:91-95 | a node is kept, with its filtered children, exactly when its title matches or one of its descendants does |
| DataBindingModal.FilterAppend | frontend/src/components/DataBindingModal/index.tsx:90-97 | filtering goes node by node, so kept nodes keep their relative order |
| DataBindingModal.MatchingSourceNoTags | frontend/src/components/DataBindingModal/index.tsx:92-94 | a source whose name matches but none of whose tags match is shown with an empty child list |
| DataBindingModal.MatchCaseInsensitive | frontend/src/components/DataBindingModal/index.tsx:91 | lower-casing either the search text or the title changes no match |
| DataBindingModal.HandleConfirm | frontend/src/components/DataBindingModal/index.tsx:135-146 | nothing is saved without both a tag key and a non-zero source id; otherwise an enabled binding with that source, tag and expression |
| DataBindingModal.HandleSelect | frontend/src/components/DataBindingModal/index.tsx:128-133 | picking a tag leaf selects its tag and source; any other node leaves the selection as it was |
| DataBindingModal.SelectThenConfirm | frontend/src/components/DataBindingModal/index.tsx:128-146 | after picking a tag leaf of a non-zero source with a non-empty key, confirming saves exactly that tag |
| PropertyField.ActualBindingKey | frontend/src/components/PropertyPanel/common/PropertyField.tsx:147 | with a selected sub-mesh and a field key the binding key is `<mesh>:<key>`; otherwise it is the field key |
| PropertyField.BindingKeyRoundTrip | frontend/src/components/PropertyPanel/common/PropertyField.tsx:147 | splitting the composed binding key at its colon gives back the sub-mesh, if one was selected, and the field key |
| PropertyField.CurrentBinding | frontend/src/components/PropertyPanel/common/PropertyField.tsx:150 | the field shows a binding exactly when it has a key and the selected object has a binding under it, and then that binding |
| PropertyField.HandleOpenBinding | frontend/src/components/PropertyPanel/common/PropertyField.tsx:152-172 | an object update is made exactly when an object is selected, the field has a key and the dialog was not cancelled; a chosen binding is stored under the key, a clear deletes it, and every other key keeps its binding |
| PropertyField.HandleCommit | frontend/src/components/PropertyPanel/common/PropertyField.tsx:37-42 | the given value, or the local value when none is given, is reported exactly when it differs from the current value |
| PropertyField.CommitUnchanged | frontend/src/components/PropertyPanel/common/PropertyField.tsx:37-42 | committing with no value reports nothing exactly when the local value is the current one |
| LabelSection.HandleTemplateChange | frontend/src/components/PropertyPanel/sections/LabelSection.tsx:24-43 | an empty template id removes the label binding; an unknown id changes nothing; a known one binds the template with every one of its fields, and only those, mapped to the empty text |
| LabelSection.MappingChange | frontend/src/components/PropertyPanel/sections/LabelSection.tsx:45-57 | without a label binding nothing happens; otherwise the template stays, the field gets the new mapping and every other field keeps its own |
| LabelSection.InitialBinding | frontend/src/components/PropertyPanel/sections/LabelSection.tsx:62-63 | the dialog opens with the field's binding exactly when the field is bound to data |
| LabelSection.OpenBindingUpdate | frontend/src/components/PropertyPanel/sections/LabelSection.tsx:59-73 | without a label binding or on cancel nothing happens; a clear maps the field to the empty text, a choice to the chosen binding |
| LabelSection.ChosenBindingReopens | frontend/src/components/PropertyPanel/sections/LabelSection.tsx:59-73 | a chosen binding is the one the dialog opens with next time on that field |
| LabelSection.ClearedBindingReopens | frontend/src/components/PropertyPanel/sections/LabelSection.tsx:59-73 | after a clear the field opens the dialog with no binding and every other field opens as before |
| LabelSection.DefaultOffset | frontend/src/components/PropertyPanel/sections/LabelSection.tsx:177 | the default offset is a triple |
| LabelSection.ShowLineUpdate | frontend/src/components/PropertyPanel/sections/LabelSection.tsx:172-180 | the switch sets the leader line as checked and keeps each shown offset |
| LabelSection.OffsetEdit | frontend/src/components/PropertyPanel/sections/LabelSection.tsx:196-206 | the edited axis shows the new value (0 when cleared), the other axes and the leader-line setting are unchanged |
| SequenceSection.FindName | frontend/src/components/PropertyPanel/sections/SequenceSection.tsx:14-20 | a node with the id gives its own name; any name found belongs to a node of that id in the structure; an id in no node gives nothing |
| SequenceSection.FindNameIn | frontend/src/components/PropertyPanel/sections/SequenceSection.tsx:16-18 | a name found among the children is non-empty and belongs to a descendant with the id; an empty name does not stop the search |
| SequenceSection.NewAnimation | frontend/src/components/PropertyPanel/sections/SequenceSection.tsx:36-53 | the new animation has the given id, lasts 3 seconds, loops, does not auto-play, eases in and out, is named after the target and the next count, and has one empty track aimed at the selected sub-mesh, if any |
| SequenceSection.AddAnimation | frontend/src/components/PropertyPanel/sections/SequenceSection.tsx:54-56 | the object's animations are kept in order and the new one is appended |
| SequenceSection.UnknownMeshNamedNull | frontend/src/components/PropertyPanel/sections/SequenceSection.tsx:37-41 | a selected sub-mesh absent from the structure names the animation `null 状态序列 <n>` |
| SequenceSection.RemoveAnimation | frontend/src/components/PropertyPanel/sections/SequenceSection.tsx:59-63 | exactly the animations without that id remain |
| SequenceSection.RemoveAbsent | frontend/src/components/PropertyPanel/sections/SequenceSection.tsx:61 | removing an id no animation has leaves the list unchanged |
| SequenceSection.RemoveUndoesAdd | frontend/src/components/PropertyPanel/sections/SequenceSection.tsx:34-63 | removing a just-added animation with a fresh id gives back the list before the add |
| SequenceSection.RemoveAppend | frontend/src/components/PropertyPanel/sections/SequenceSection.tsx:61 | removal goes element by element, keeping order |
| SequenceSection.MergeAnimation | frontend/src/components/PropertyPanel/sections/SequenceSection.tsx:67 | an update never changes the animation's id |
| SequenceSection.UpdateAnimation | frontend/src/components/PropertyPanel/sections/SequenceSection.tsx:65-69 | the list keeps its length and ids; the animations with that id take the update and the others are unchanged |
| SequenceSection.RemoveAfterUpdate | frontend/src/components/PropertyPanel/sections/SequenceSection.tsx:59-69 | removing an animation after editing it gives the same list as removing it unedited |
| SequenceSection.EditTimelineOpens | frontend/src/components/PropertyPanel/sections/SequenceSection.tsx:71-78 | opening the timeline on an animation shows it for that object and animation, stopped at time 0 when it was not the one already open |
| GltfSection.Toggle | frontend/src/components/PropertyPanel/sections/GltfSection.tsx:44-56 | a playing animation stops and every other keeps its state; one not playing is appended to the end |
| GltfSection.ToggleTwice | frontend/src/components/PropertyPanel/sections/GltfSection.tsx:44-56 | toggling the same animation twice leaves the same set of animations playing |
| GltfSection.ToggleBack | frontend/src/components/PropertyPanel/sections/GltfSection.tsx:44-56 | toggling an animation on and off again restores the list exactly |
| GltfSection.ToggleAfterStopAll | frontend/src/components/PropertyPanel/sections/GltfSection.tsx:44-58 | after stopping everything nothing plays, and a toggle plays exactly that one animation |
| GltfSection.HandleBlur | frontend/src/components/PropertyPanel/sections/GltfSection.tsx:31-35 | leaving the field updates the url exactly when the text differs from the object's url, and then to the text |
| GltfSection.BlurUntouched | frontend/src/components/PropertyPanel/sections/GltfSection.tsx:19-35 | leaving an untouched field makes no update, except that an object with no url gets the empty url |
| SceneSection.BackgroundChange | frontend/src/components/PropertyPanel/sections/SceneSection.tsx:21-32 | the type is always set; a colour value is cleared when switching to an image or panorama, a non-colour value becomes `#111111` when switching to colour, and otherwise the value is left out |
| SceneSection.BackgroundSuitsKind | frontend/src/components/PropertyPanel/sections/SceneSection.tsx:21-32 | after the change a colour background has a `#` value, an image or panorama background has not, and the rest of the configuration is unchanged |
| SceneSection.SaveBookmark | frontend/src/components/PropertyPanel/sections/SceneSection.tsx:35-45 | without a camera nothing is saved; otherwise the bookmarks are kept and one named `书签 <n+1>` at the camera position, aimed at the origin, is appended |
| SceneSection.RemoveBookmark | frontend/src/components/PropertyPanel/sections/SceneSection.tsx:48-50 | exactly the bookmarks without that id remain |
| SceneSection.RemoveBookmarkAppend | frontend/src/components/PropertyPanel/sections/SceneSection.tsx:49 | removal goes bookmark by bookmark, keeping order |
| SceneSection.RemoveBookmarkAbsent | frontend/src/components/PropertyPanel/sections/SceneSection.tsx:49 | removing an id no bookmark has leaves the list unchanged |
| SceneSection.RemoveUndoesSave | frontend/src/components/PropertyPanel/sections/SceneSection.tsx:35-50 | removing a bookmark just saved under a fresh id gives back the list before it |
| TemplateManager.NewForm | frontend/src/components/TemplateManager/TemplateManagerModal.tsx:37-45 | a new template gets a `template_<time>` id, the name `未命名模板`, the one field `title` and html that shows it through its placeholder |
| TemplateManager.NewFormPreview | frontend/src/components/TemplateManager/TemplateManagerModal.tsx:37-64 | the new template's preview shows the field name `title` where its placeholder was |
| TemplateManager.AddField | frontend/src/components/TemplateManager/TemplateManagerModal.tsx:111 | the field is appended and the others kept in order, even when the form already has it |
| TemplateManager.RemoveField | frontend/src/components/TemplateManager/TemplateManagerModal.tsx:112 | every copy of the field goes and every other field stays |
| Text.FilterOutOne | frontend/src/components/TemplateManager/TemplateManagerModal.tsx:112 | one field is kept iff it is not the removed one |
| Text.FilterOutConcat | frontend/src/components/TemplateManager/TemplateManagerModal.tsx:112 | filtering a joined list is filtering each part and joining: the kept fields stay in their order |
| TemplateManager.RemoveUndoesAdd | frontend/src/components/TemplateManager/TemplateManagerModal.tsx:111-112 | adding a field the form lacks and removing it again gives back the fields |
| TemplateManager.WholePatch | frontend/src/components/TemplateManager/TemplateManagerModal.tsx:56 | merging the saved template as an update gives exactly the saved template, whatever was there before |
| TemplateManager.Session.Select | frontend/src/components/TemplateManager/TemplateManagerModal.tsx:77 | the sidebar's choice becomes the edited id |
| TemplateManager.Session.SyncForm | frontend/src/components/TemplateManager/TemplateManagerModal.tsx:29-46 | a stored template with the edited id is copied into the form; the `new` id starts the new form; otherwise the form is unchanged |
| TemplateManager.Session.EditName | frontend/src/components/TemplateManager/TemplateManagerModal.tsx:90 | the form takes the new name and nothing else changes |
| TemplateManager.Session.EditCode | frontend/src/components/TemplateManager/TemplateManagerModal.tsx:100-104 | the open tab's code takes the editor text, the empty text when the editor is empty |
| TemplateManager.Session.AddFormField | frontend/src/components/TemplateManager/TemplateManagerModal.tsx:111 | the form's fields gain the field at the end |
| TemplateManager.Session.RemoveFormField | frontend/src/components/TemplateManager/TemplateManagerModal.tsx:112 | the form's fields lose every copy of the field |
| TemplateManager.Session.HandleSave | frontend/src/components/TemplateManager/TemplateManagerModal.tsx:48-62 | without a form or on a failed save nothing changes; a saved new template is appended and becomes the edited one; a saved existing one replaces the stored templates with its id |
| TemplateManager.SaveReplacesEdited | frontend/src/components/TemplateManager/TemplateManagerModal.tsx:56 | saving over the edited template stores exactly the saved record at every position with its id and keeps the others |
| TemplateManager.SavedNewIsFound | frontend/src/components/TemplateManager/TemplateManagerModal.tsx:52-54 | a saved new template with a fresh id is found by that id, so the form keeps showing it |
| TemplateSidebar.HandleCreate | frontend/src/components/TemplateManager/components/TemplateSidebar.tsx:25-27 | creating selects the `new` id |
| TemplateSidebar.DuplicateOf | frontend/src/components/TemplateManager/components/TemplateSidebar.tsx:30-34 | the copy has a temporary `template_` id, the name followed by ` (副本)`, and the same html, css and fields |
| TemplateSidebar.HandleDuplicate | frontend/src/components/TemplateManager/components/TemplateSidebar.tsx:35-41 | a saved copy is appended to the store; a failed save adds nothing |
| TemplateSidebar.HandleRemove | frontend/src/components/TemplateManager/components/TemplateSidebar.tsx:44-56 | the server is asked exactly for ids without the temporary prefix; a failed server delete changes nothing; otherwise the templates with that id are removed and an editor open on it is closed |
| TemplateSidebar.DuplicateIsInserted | frontend/src/components/TemplateManager/components/TemplateSidebar.tsx:30-37 | the copy goes to the server without an id, so it is stored as a new template, and removing it before a save skips the server |
| AssetUploadModal.CategoryFor | frontend/src/constants/index.ts:206-222 | each listed extension gives its category (model, texture, hdr, video) and every other extension gives `other` |
| AssetUploadModal.ExtensionOf | frontend/src/views/AssetManagementView/components/AssetUploadModal.tsx:39 | the extension is the name from its last dot on, lower-cased, and is never longer than the name |
| AssetUploadModal.ExtensionAfterLastDot | frontend/src/views/AssetManagementView/components/AssetUploadModal.tsx:39 | a name ending in `.<ext>` has the extension `.<ext>` lower-cased, whatever dots the stem holds |
| AssetUploadModal.UpperCaseModel | frontend/src/views/AssetManagementView/components/AssetUploadModal.tsx:39-40 | an upper-case `.GLB` file is classified as a model |
| AssetUploadModal.DefaultName | frontend/src/views/AssetManagementView/components/AssetUploadModal.tsx:42 | the default asset name holds no dot |
| AssetUploadModal.DefaultNameIsStem | frontend/src/views/AssetManagementView/components/AssetUploadModal.tsx:42 | the default asset name is the file name up to its first dot |
| AssetUploadModal.Dialog.constructor | frontend/src/views/AssetManagementView/components/AssetUploadModal.tsx:19 | the dialog opens on the file step with no file, no cover, the model category and an empty name |
| AssetUploadModal.Dialog.HandleFileChange | frontend/src/views/AssetManagementView/components/AssetUploadModal.tsx:34-45 | a picked file replaces the old one, drops the cover, sets the category from its extension and the name from its stem, and opens the form; then a model cannot be submitted yet; no file changes nothing |
| AssetUploadModal.Dialog.CaptureThumbnail | frontend/src/views/AssetManagementView/components/AssetUploadModal.tsx:75-77 | the captured image becomes the cover |
| AssetUploadModal.Dialog.SetCategory | frontend/src/views/AssetManagementView/components/AssetUploadModal.tsx:214 | the picked category is the dialog's category |
| AssetUploadModal.Dialog.BackToSelect | frontend/src/views/AssetManagementView/components/AssetUploadModal.tsx:180 | the back button returns to the file step, keeping the file |
| AssetUploadModal.Dialog.OnFinish | frontend/src/views/AssetManagementView/components/AssetUploadModal.tsx:47-64 | without a file nothing is sent; otherwise the form's name, category, file and cover are sent, a success moves to the done step, and the dialog is no longer uploading |
| AssetUploadModal.Dialog.Reset | frontend/src/views/AssetManagementView/components/AssetUploadModal.tsx:66-73 | the dialog returns to the file step with no file and no cover |
| ServerFiles.SuffixOf | server/src/main/java/com/omni3d/server/service/impl/AssetServiceImpl.java:54-56 | a name has a suffix exactly when it has a dot (otherwise `substring(-1)` throws), and the suffix starts with the dot |
| ServerFiles.SuffixAfterLastDot | server/src/main/java/com/omni3d/server/service/impl/AssetServiceImpl.java:55 | the suffix of `<stem>.<ext>` is `.<ext>` lower-cased, whatever dots the stem holds |
| AssetService.DetermineType | server/src/main/java/com/omni3d/server/service/impl/AssetServiceImpl.java:85-96 | the type is one of five, and each of model, image, video and hdr is given for exactly its listed suffixes |
| AssetService.TypeMatchesDialogCategory | server/src/main/java/com/omni3d/server/service/impl/AssetServiceImpl.java:85-96 | the server's type for a suffix is the upload dialog's category for it, with the dialog's `texture` named `image` |
| AssetService.SuffixMatchesDialog | server/src/main/java/com/omni3d/server/service/impl/AssetServiceImpl.java:55 | for a name with a dot the server's suffix is the upload dialog's extension |
| AssetService.ThumbFileName | server/src/main/java/com/omni3d/server/service/impl/AssetServiceImpl.java:75 | a stored cover's name starts with `thumb_` |
| AssetService.UploadUrl | server/src/main/java/com/omni3d/server/service/impl/AssetServiceImpl.java:65-78 | a stored file's url is `/uploads/` followed by its name |
| AssetService.AssetServiceImpl.constructor | server/src/main/java/com/omni3d/server/service/impl/AssetServiceImpl.java:23-25 | a new service has no assets and an empty id sequence |
| AssetService.AssetServiceImpl.GrowKeepsValid | server/src/main/java/com/omni3d/server/service/impl/AssetServiceImpl.java:59-77 | storing more files keeps every recorded asset's files in the directory |
| AssetService.AssetServiceImpl.UploadAsset | server/src/main/java/com/omni3d/server/service/impl/AssetServiceImpl.java:41-83 | an empty file or a name without a dot is refused before anything is written; a cover name without a dot is refused after the main file is written; otherwise the file (and a non-empty cover) are stored under random names and the row with the next id, the given name and category, the suffix's type, the urls and the file's size is appended; every recorded asset's files stay in the directory |
| AssetService.PageQuery | server/src/main/java/com/omni3d/server/service/impl/AssetServiceImpl.java:28-38 | a name adds the condition `name LIKE '%name%'` unless it is missing or empty; a category adds an equality condition unless it is missing, empty or `all` |
| AssetService.AllCategorySelectsEverything | server/src/main/java/com/omni3d/server/service/impl/AssetServiceImpl.java:30-35 | with no name and the `all` category, or an empty name and no category, every asset is listed |
| AssetService.NameSearchNarrows | server/src/main/java/com/omni3d/server/service/impl/AssetServiceImpl.java:30-31 | a non-empty name lists only assets whose name matches `LIKE '%name%'`; for a name without `%` or `_`, only assets whose name contains it |
| Text.LikeContains | server/src/main/java/com/omni3d/server/service/impl/AssetServiceImpl.java:30-31 | `name LIKE '%t%'` for text `t` without `%` or `_` holds iff the name contains `t` |
| AssetService.NameSearchExact | server/src/main/java/com/omni3d/server/service/impl/AssetServiceImpl.java:30-31 | with no category, a search for text without `%` or `_` lists an asset iff its name contains the text |
| AssetService.UnderscoreMatchesAnyChar | server/src/main/java/com/omni3d/server/service/impl/AssetServiceImpl.java:30-31 | `_` in the search text matches any one character: searching `a_c` lists an asset named `abc` |
| ProjectService.CoverFileName | server/src/main/java/com/omni3d/server/service/impl/ProjectServiceImpl.java:55 | a stored cover's name starts with `project_` |
| ProjectService.OldCoverFile | server/src/main/java/com/omni3d/server/service/impl/ProjectServiceImpl.java:68-69 | only an old cover url under `/uploads/` names a stored file, the rest of the url |
| ProjectService.WithoutOldCover | server/src/main/java/com/omni3d/server/service/impl/ProjectServiceImpl.java:68-74 | the old cover's file is deleted when it is a stored upload, and nothing is deleted otherwise |
| ProjectService.ProjectServiceImpl.constructor | server/src/main/java/com/omni3d/server/service/impl/ProjectServiceImpl.java:22-23 | the service works on the given directory and project table |
| ProjectService.ProjectServiceImpl.UploadThumbnail | server/src/main/java/com/omni3d/server/service/impl/ProjectServiceImpl.java:36-77 | an empty file or a name without a dot is refused before anything is written; otherwise the file is stored as `project_<id>_<8 chars><suffix>` (`.png` without a name), an existing project points at its url, the old uploaded cover is deleted and the url is returned, also for a missing project |
| ProjectService.NewCoverStored | server/src/main/java/com/omni3d/server/service/impl/ProjectServiceImpl.java:55-74 | the new cover is in the directory afterwards, unless its name is the old cover's |
| ProjectService.ExternalCoverKept | server/src/main/java/com/omni3d/server/service/impl/ProjectServiceImpl.java:68 | a cover that is not an uploaded file is never deleted |
| ProjectService.OnlyOldCoverDeleted | server/src/main/java/com/omni3d/server/service/impl/ProjectServiceImpl.java:68-74 | every stored file other than the old cover stays |
| ProjectService.PageNameLike | server/src/main/java/com/omni3d/server/service/impl/ProjectServiceImpl.java:26-33 | a name adds a `LIKE '%name%'` condition exactly when it is present and non-empty |
| ProjectService.NameSearchContains | server/src/main/java/com/omni3d/server/service/impl/ProjectServiceImpl.java:28-30 | a search for text without `%` or `_` lists a project iff its name contains the text |
| ProjectService.BlankSearchSelectsAll | server/src/main/java/com/omni3d/server/service/impl/ProjectServiceImpl.java:28-30 | a missing or empty name lists every project |

## Left out

- ObjectDataBinding.ApplyDataBindings, ObjectDataBinding.LabelSubs and StoreUtils.ApplyEntries walk `dataBindings` and `fieldMappings` in written order, not in own-key order. The two orders differ only for keys that are array indices or repeated. Binding keys are property paths or `mesh:path`, and field names are template placeholders, so neither is an array index in the editor's data; the editor writes these dictionaries key by key, so no key repeats.
- Rendering is not modelled. This covers three.js and WebGL, the viewport components, CSS injection and the JSX layout of every panel. These drive a foreign scene graph or only draw.
- Floating-point numerics are not modelled: the roaming distance and time computation (`recalculateRoamingTimes`), `calculateVisualProgress`, easing, interpolation and the formatting of numbers as text. Keyframe times and vector components are opaque `real`s. `String(x)` is a parameter.
- Timers and polling are not modelled: the data-binding runner's `startPolling`/`stopPolling` intervals, animation frames and debounces. Only the runner's scan for the sources to poll is modelled.
- `new Function` expression evaluation is not modelled. It is the `eval` parameter, which may fail, in `StoreUtils.ApplyBindingsToObjects`, `ObjectDataBinding` and the binding dialog.
- The binding dialog's live preview (`selectedNodeInfo` and `previewValue`) is not modelled; it only evaluates an expression for display.
- Random and time-based ids are parameters: `Math.random`, `THREE.MathUtils.generateUUID`, `Date.now` and `UUID.randomUUID`.
- Network requests, dialog promises and the thumbnail renderer are not modelled; their answers are parameters. The REST controllers, the result envelope, the request interceptor and local storage are not part of this model.
- The server's database is not modelled: paging, the `orderByDesc` ordering, the logical-delete flag and the timestamp fill. A table is a sequence or map of live rows, and a list query is modelled by its filter (`Selects`).
- The server's `mkdirs` call is not modelled, and neither are I/O failures of `transferTo`. The directory always exists and writes succeed.
- Store actions outside the data logic are not modelled: `setObjects`, `handleSelect`, the roaming-node add, remove and update actions (whose times are floating point), `setRoamingIndex`, `setTransformMode` and the visibility setters. They are single-field setters or numeric.
- StoreUtils.SetDeep: a write whose path passes through an array is reported as `Unmodelled` instead of writing into the array.
- StoreUtils.SetDeepOnObject: a dotted path whose first key is one of the typed fields (`id`, `children`, `customAnimations`, ...) is reported as `Unmodelled`. The model keeps those fields typed rather than as plain properties.
- StoreUtils.SetDeepOnNode: a dotted path whose first key is a typed node field (`id`, `name`, `children`, `sourceNodeId`, `originalName`) is reported as `Unmodelled`. The source writes it, so a binding keyed `m:name` renames node `m`; the model keeps those fields typed.
- StoreUtils.SetDeep works on values. The source's `setDeepValue` assigns into the nested objects in place. Writes through shared nested objects, and so into history snapshots, are not modelled.
- StoreUtils.ApplyBindingsToObjects works on values. The source copies only one level (`{...obj}`, `{...targetNode}`) before `setDeepValue` writes in place, so a binding on a nested path such as `material.color` also writes into the object shared with the previous state and with the undo snapshots that hold it. The model leaves those untouched.
- EditorStore.PatchOf: an update the model cannot express is `None`, and `SET_PROPERTY` then changes nothing. Such updates are objects giving `id`, `children`, `structure`, `dataBindings`, `labelBinding`, `events`, `customAnimations`, `sourceObjectId` or `labelConfig`; objects giving `name`, `url` or `htmlLabel` a non-string, `activeAnimations` anything but an array of strings, or `activeCustomAnimationId` anything but a string, `null` or `undefined`; and a non-empty string or array, which JavaScript's spread turns into index keys (`{..."ab"}` is `{0: "a", 1: "b"}`). The source writes all of these. `undefined` for `activeCustomAnimationId` is read as cleared, like `null`.
- EditorStore.PlainFields: the typed keys of a parsed `SET_PROPERTY` object are not among its results; the update reads them separately (`EditorStore.PatchOf`), with the gaps listed on the previous line.
- EditorStore.Store.SetPropertyOn: an update that `EditorStore.PatchOf` cannot express leaves the objects and the history unchanged, where the source applies it.
- EditorStore.Store.ExecuteAction: the same holds for its `SET_PROPERTY` branch.
- ApiTemplate.NumberOf: only the id strings the editor holds are read as JavaScript's `Number` reads them: decimal digit strings from `String(item.id)` and the temporary `template_…` ids. A sign, an exponent, a hexadecimal prefix or a fraction (`"-3"`, `"1e3"`, `"0x1F"`, `"1.5"`) is read as `NaN`, where JavaScript gives a number.
- Text.Like: characters are compared exactly and no escape character is read. The database's collation is not part of this model; under a case-insensitive collation `ABC` also matches `abc`, and MySQL reads `\%` and `\_` as literal characters. So `AssetService.NameSearchNarrows`, `AssetService.NameSearchExact` and `ProjectService.NameSearchContains` hold for a case-sensitive collation and search text without a backslash.
- StoreUtils.UpdateRecursiveFound: it states the first object with the id. The source's `list.map` also updates a later object at the same level with the same id; `UpdateRecursiveFrame` only says such objects may change. Object ids are UUIDs, so this does not arise in practice.
- EditorStore.StrOf: a non-string event `value` is read as absent, so `null`, `undefined` and numbers all come out as `None`. The source's `PLAY_ANIMATION` and `PLAY_CUSTOM_ANIMATION` compare the raw value; the interaction panel only produces strings.
- EditorStore.CopyOfObject: properties whose value is `undefined` are kept in the copy. The source's `JSON.parse(JSON.stringify(...))` deep copy drops them.
- PropertyField.HandleCommit: values are compared by structure. JavaScript's `!==` compares arrays and objects by reference, so the source reports a freshly built but equal vector or object as a change, and the model does not.
- Text.Lower: lower-casing is ASCII only. JavaScript's `toLowerCase` and Java's locale-dependent `toLowerCase` also fold non-ASCII letters, so extensions, suffixes and search matching are modelled for ASCII text.
- AssetUploadModal.CategoryFor: a file name without a dot that equals an inherited property name of a JavaScript object (`constructor`, `toString`, ...) finds that property in `EXTENSION_MAP`, not `other`. The model gives `other`.
- The upload dialog's preview url (`createObjectURL` with a `#.glb`/`#.gltf` suffix) is not modelled. It is a browser object url.
- TemplatePreview.PreviewHtml: a field name is treated literally, although the source builds a regular expression from it. Field names holding regular-expression metacharacters, and `$` patterns in the replacement, are not modelled. The same holds for the label filling in ObjectDataBinding.LabelHtml.
- SequenceSection.FindName: the contract says a name is found only for an id some node has, and that a node with the id at the root gives its name. It does not state the converse for nested nodes whose names are all empty, where the source goes on searching and may return `null`.
- TransformUpdate.HandleTransformChange: it requires an axis below 3 and a three-component current vector. The panel only offers the x, y and z axes of three-component vectors.
- The label section's free-text label field (`onUpdate({label: val || ''})`) is not modelled. It is a one-line setter.
- The timeline recorder's `createKeyframeFromObject` is not modelled; the captured keyframe is an input.
- The store's `INITIAL_STATE` constants are not modelled; the constructor takes the starting objects and scene configuration as inputs.

## Findings

| source | as written | input that shows it | evidently intended | confidence | as-written member | corrected member |
|---|---|---|---|---|---|---|
| frontend/src/utils/index.ts:328 | `findActiveAnimations` calls itself on an object's children but drops the result, so only top-level objects' animations are reported | a group object whose only child has an `autoPlay` animation: the scan returns an empty list | the documented recursive search: every object at any depth reports its playing animations, in pre-order | not executed | TreeUtils.FindActiveAnimations (with TreeUtils.NestedAnimationMissed) | TreeUtils.FindActiveAnimationsDeep |
