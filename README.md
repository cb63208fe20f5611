# Storyboard node playback, modelled in Dafny

Storyboard is a narrative-state engine. Stories are made of nodes, and each
node holds an ordered list of passages. Both of the engine's traversal
machines play content through one step, `Node.playPassage`: the linear node
graph and the storylet bag. This project models the `Node` class, which is
that step and the constructor that builds a node from its definition.

- `story.dfy` (module `Story`) holds the definition values the story parser
  produces: `Passage`, `Choice`, `NodeData`, the `Value`s a `set` patch
  writes, and `Option` for fields that may be `undefined`. Two source field
  names are Dafny keywords, so they are renamed: `set` becomes `patch` and
  `predicate` becomes `guard`. The `type` field becomes `contentType`.
- `actions.dfy` (module `GameActions`) holds the three actions a node raises:
  `Output`, `SetVariables` and `CompletePassage`. It also ranks them in the
  order one passage raises them.
- `node.dfy` (module `Nodes`) holds the `Node` class. Its definition fields
  are `const`, because the source declares them `readonly`. The dispatch
  callback becomes two fields. `attached` says whether a callback is wired.
  `log` is the sequence of actions raised through it so far, and
  `PlayPassage` appends to it. `PlaySpec` is a declarative reference
  description of one passage's actions. `PassageActions` and `PlayActions`
  compute them. Lemmas show that the reference admits exactly one action
  list, and that over any series of calls each played passage is ended
  exactly once.

## Model

| member | source | states |
|---|---|---|
| Nodes.TrackOrDefault | src/node.ts:15 | the track is never empty: a non-empty supplied track is kept, and a missing or empty one becomes "default" |
| Nodes.Node.constructor | src/node.ts:11-16 | every definition field is copied onto the node, the track is defaulted as above, the dispatch wiring is recorded, and nothing has been dispatched yet |
| Nodes.OutputPayload | src/node.ts:35 | the OUTPUT payload carries the node's track; the passage's id, content, content type, patch and guard are carried over unchanged |
| Nodes.PassageActions | src/node.ts:32-45 | a present passage raises one or two actions that meet the reference description; OUTPUT iff content is defined (an empty string counts), COMPLETE_PASSAGE iff it is not, SET_VARIABLES iff there is a patch |
| Nodes.PlaySpecUnique | src/node.ts:32-45 | any action list meeting the reference description (warranted payloads, OUTPUT/SET_VARIABLES/COMPLETE_PASSAGE order, each required kind present) is exactly the one playback raises |
| GameActions.RankedEqual | src/node.ts:34-45 | two action lists ordered by kind, each kind at most once, that hold the same actions are equal, so the fixed dispatch order fixes the list |
| Nodes.PlayActions | src/node.ts:27-46 | a call raises nothing iff the node has no passages, the index is negative or past the end, or no dispatch is attached; otherwise it raises at most two actions that meet the reference description for that passage |
| Nodes.Node.PlayPassage | src/node.ts:27-46 | the log grows by exactly the call's actions: unchanged in the three no-op cases, otherwise by one or two actions meeting the reference description; only the log changes |
| Nodes.OneSignalPerPlay | src/node.ts:32-45 | one call raises exactly one passage-ending action (OUTPUT, which waits for an external completion, or COMPLETE_PASSAGE) when its passage is playable, and none otherwise |
| Nodes.ReplaySignals | src/node.ts:27-46 | over any series of calls on one node, the number of passage-ending actions equals the number of calls that named a playable passage |
| Nodes.CompletionSignalsAppend | src/node.ts:27-46 | helper step for ReplaySignals: the count of passage-ending actions in two concatenated logs is the sum of their counts |

The behaviour is also asserted by the repository's tests. A passage without
content completes on its own and play moves on
(tests/gameTests.js:146-211). A passage's `set` patch is raised even when it
has content (tests/gameTests.js:500-553).

## Left out

- The dispatch reducer, the keypath state store, the predicate evaluator,
  template interpolation, the output registry, the node graph, the node bag
  and the game composition root are not part of this model. The source
  files `src/predicate`, `src/gameActions`, `src/dispatch`, `src/game` and
  `src/nodeGraph` are not part of this model either. The model therefore
  says nothing about what the actions do to the game state.
- Skipping passages whose predicate fails is not modelled. `playPassage`
  ignores a passage's `predicate`. The tests expect skipping, so it must
  happen in the graph or bag code, which is not part of this model.
- Nodes.Node.PlayPassage: the dispatch callback is modelled as an
  append-only action log plus a flag saying whether a callback is wired.
  What the callback does, and any reassignment of `dispatch` during a call,
  is not modelled.
- Nodes.Node.PlayPassage: re-entrant calls are not modelled. Dispatch is
  synchronous, so a callback may play the next passage, for example by
  completing the passage at once, before this call's remaining dispatches
  run. The next passage's actions would then sit between this passage's
  OUTPUT and its SET_VARIABLES. The proved order holds for the call's own
  actions only, and `Replay` describes calls that do not nest.
- Nodes.PassageActions: JavaScript `null` fields are not modelled; `None`
  stands for `undefined` only. The source tests content with
  `_.isUndefined`, so `content: null` would count as content and raise
  OUTPUT. It tests `set` by truthiness, so `set: null` would raise no
  SET_VARIABLES. A `null` or array value inside a patch is modelled, as
  `Value.Null` and `Value.Arr`.
- Nodes.Node.PlayPassage: passage indexes are integers. A fractional or
  non-numeric index, which reads `undefined` in JavaScript and is a no-op
  there, is not modelled.
- Nodes.Node.PlayPassage: passage arrays have no holes. A `null` or missing
  entry inside the range, which the source also treats as a no-op, is not
  modelled.
- Nodes.Node.constructor: `Object.assign` copies any extra keys of the
  definition object onto the node; only the declared fields are modelled.
  The track is typed as a string, so the only falsy tracks modelled are a
  missing one and the empty string.
- Numbers in `set` patches are modelled as integers, not floating point.
- Output callbacks and rendering are I/O fan-out and are left out.
- Nodes.Node.constructor: tests/gameTests.js:784-815 expect a node without
  `allowRepeats` to fire only once. The constructor sets no default for the
  flag, so an absent flag stays undefined, and the model keeps it as `None`.
  Treating `None` as false is the bag's business, which is not part of this
  model.
