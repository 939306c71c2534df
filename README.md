# meteor-d3-force: graph-sync core in Dafny

meteor-d3-force shows a live graph of Meteor `nodes` and `links` documents with
a d3 force layout. This project models the part that keeps the layout's data in
step with the collections:

- `linksToD3Array` turns raw link documents into layout links. It indexes
  the node list by `_id`, with later nodes overwriting earlier ones. It then
  emits one link per document, carrying its `_id` and `type` and the looked-up
  `source`/`target` node.
- `GraphVis` keeps two live arrays, `nodes` and `links`, and has four
  operations on them. `addNode` pushes a document. `addLink` resolves one
  document against the current nodes and pushes the result. `removeNode`
  and `removeLink` scan for the last entry with the document's `_id` and then
  call `splice(iToRemove, 1)`.

The model follows the code as written, including three behaviours that a
cleaner design would avoid:

- A link with an unknown endpoint id is emitted with that endpoint absent
  (`undefined`). It is not dropped.
- Removing a node leaves the links that point at it in place.
- Removing an id that no entry has is not a no-op. `iToRemove` stays
  `undefined`, and `splice` reads that as index 0, so the first entry is
  removed. Only an empty array is left unchanged.

Files:

- `wrappers.dfy`: `Option`, where `None` stands for `undefined`.
- `records.dfy`: the documents, their id sequences, and `LastIndex`. `LastIndex`
  is the "last matching index" that both the dictionary and the removal scans
  compute.
- `link_resolver.dfy`: the specification `ResolveLink`/`LastWithId`, the
  dictionary `IdIndex`, and the imperative method `LinksToD3Array`.
- `splice.dfy`: `splice(start, 1)` with an index-or-`undefined` start, and the
  lemmas about removal by id.
- `graph_vis.dfy`: the `GraphVis` class and two client scenarios.

## Model

| member | source | states |
|---|---|---|
| `Records.LastIndex` | meteor-d3-force.js:224-229 | the scan's final `iToRemove`: absent exactly when no entry has the id, otherwise an index holding the id with no later index holding it |
| `Records.AppendUniqueIff` | meteor-d3-force.js:215-217 | pushing a node keeps ids unique if and only if they were unique and the new id is not already present (push does not check this) |
| `LinkResolver.LastWithId` | meteor-d3-force.js:79-87 | the node found for an id: absent exactly when no node has the id, otherwise a node with that id after which no node has it (last one wins) |
| `LinkResolver.ResolveLink` | meteor-d3-force.js:85-90 | a resolved link keeps `_id` and `type`; each endpoint is a node of the list with the requested id, and is absent exactly when the id is not among the node ids |
| `LinkResolver.IdIndexLastWins` | meteor-d3-force.js:79-82 | looking an id up in the dictionary built by overwriting `nodes[node._id]` in list order gives the last node with that id |
| `LinkResolver.LinksToD3Array` | meteor-d3-force.js:78-94 | one output per input link, same length and order, each equal to the input link resolved against the node list (unknown endpoints kept as absent) |
| `Splice.RemoveMatched` | meteor-d3-force.js:223-231 | when some entry has the id, the result is the input with exactly the last such entry cut out, the others in their order |
| `Splice.RemoveUnmatched` | meteor-d3-force.js:224-230 | when no entry has the id, the first entry is removed (`splice(undefined, 1)`), and an empty sequence stays empty |
| `Splice.RemoveIdsMultiset` | meteor-d3-force.js:223-231 | the id multiset loses one copy of the id when present, and one copy of the first entry's id when absent |
| `Splice.RemoveKeepsUnique` | meteor-d3-force.js:233-241 | on unique ids, removal keeps them unique and the removed id is no longer present |
| `Splice.NodeIdsSplice` | meteor-d3-force.js:230 | splicing the node array and then taking ids equals splicing the ids |
| `Splice.LinkIdsSplice` | meteor-d3-force.js:240 | splicing the link array and then taking ids equals splicing the ids |
| `Splice.RemovedNodeGone` | meteor-d3-force.js:223-231 | with unique node ids, `removeNode` leaves no node with that id and the ids stay unique |
| `Splice.RemoveUnknownTwice` | meteor-d3-force.js:234-240 | removing an unknown id is not idempotent: twice on two entries it empties the array |
| `GraphVisState.GraphVis.constructor` | meteor-d3-force.js:96-99 | the live arrays are the ones passed in |
| `GraphVisState.GraphVis.AddNode` | meteor-d3-force.js:215-217 | `nodes` gains the document at the end, earlier entries unchanged; `links` unchanged |
| `GraphVisState.GraphVis.AddLink` | meteor-d3-force.js:219-221 | `links` gains exactly the document resolved against the current nodes; `nodes` unchanged |
| `GraphVisState.GraphVis.RemoveNode` | meteor-d3-force.js:223-231 | `nodes` becomes the removal of the last node with the id (the first node if none has it); `links` unchanged, so dangling links stay |
| `GraphVisState.GraphVis.RemoveLink` | meteor-d3-force.js:233-241 | `links` becomes the removal of the last link with the id (the first link if none has it); `nodes` unchanged |

## Left out

- Object identity: the source's links hold references to the node objects, and d3 writes positions into those objects. Here nodes are values, so d3 mutating a node and seeing the change through a link is not modelled.
- Aliasing: `GraphVis` shares its arrays with d3's force layout and with the caller. Here they are `seq` fields that the methods reassign.
- The dictionary in `linksToD3Array` is a plain JavaScript object. A node id `__proto__`, or a link endpoint naming an inherited key such as `constructor`, behaves differently there than in the map used here. Ids are assumed to be ordinary strings.
- `_id` comparison: `===` on Meteor's string ids is modelled as string equality. Mongo ObjectID ids are not modelled.
- The Meteor collections, template helpers, form submit handlers and server startup (meteor-d3-force.js:1-43, 245-249) are database and UI plumbing.
- The `observe` wiring (meteor-d3-force.js:45-74) is a callback subscription. Each notification calls exactly one of the four operations and then `render()`. The initial snapshot (`fetch` and `linksToD3Array` at lines 47-51) is the constructor's input.
- Everything d3, because it is a foreign library working on floating-point positions and the DOM: SVG setup, zoom/pan and `scaleExtent` (102-114), force configuration and physics (117-122), arrow markers (131-145), `tick` (152-171), `resize` (174-179), and the keyed enter/exit join in `render` (182-212).
