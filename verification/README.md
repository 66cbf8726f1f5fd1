# TodoNet board — a Dafny model

TodoNet is a browser board of goal nodes joined by weighted, directed links.
Each node has an id, a name, a commit count, a position, a link map (target id
to weight), an activation, a colour, and two flags (starred, acute). This
project models the board's logic as pure functions over immutable values. It
proves what that logic guarantees. The parts covered are:

- **Activation engine** (`activation.dfy`, script.js). It resets every
  activation, then runs `ic` Jacobi rounds. Each link S -> T whose target
  exists adds `weight * S.commit + S.activation * alpha` to T's increment,
  reading S.activation from the start of the round. The increments are applied
  all at once when the round ends.
  - The model has the pure specification (`Propagate`) and the handler's
    imperative loop (`PropagateInPlace`), and proves they agree.
  - It proves these properties:
    - The result forgets the incoming activations.
    - Running the engine twice gives the same result as running it once.
    - The result does not depend on node order.
    - Dangling links are ignored.
    - A node with no incoming links stays at 0.
    - A weight change shifts only the target's increment.
    - The seed board's numbers.
- **State operations** (`state.dfy`, state.js). These cover add, delete, the
  per-node updates, link update, and load with back-fill of missing fields.
- **Commit history and heat strip** (`acute.dfy`, acute.js).
- **Editor panel** (`editor.dfy`, editor.js). This covers weight cycling on
  {1, 2, 3}, the callback invocations a links-table click makes, the links
  table's rows, and the form's `parseInt(..., 10) || 0`.
- **Single-file revision** (`script.dfy`, script.js). The board exists in two
  revisions: this one keeps all logic in script.js, and the *split revision*
  spreads the same logic over state.js, board.js, editor.js, acute.js and
  main.js (the other modules here). The single-file revision's inline handlers
  are each proved equal to the split revision's operation they duplicate.
- **Board interaction** (`board.dfy`, board.js). This is the
  panning / dragging / linking state machine, the drag-to-link rule, and the
  zoom clamp with zoom-to-cursor.
- **Console command and callback wiring** (`app.dfy`, main.js).
- **JavaScript string primitives** (`text.dfy`, `util.dfy`). These are `split`,
  `trim`, number-to-string, `parseInt`, and the truncating `%`.

JavaScript's `if (n.links[t])` tests truthiness. The model writes this as
`Graph.IsLinked`: the key is present and the weight is non-zero. As a result,
a zero-weight link survives `deleteNode`, and a drag over it overwrites it
with 1.

Lookups by id (`nodes.find`) return the first node that carries the id. Ids
are not assumed to be unique.

These become parameters:

- the confirmation dialog's answer;
- fresh ids (`Date.now()`);
- today's day key;
- the saved node list;
- the commit history;
- the board's on-screen geometry.

### The propagation formula

The formula is modelled as script.js:301 writes it. It has no division by the
iteration count and no term a node receives from its own commit. A node without
incoming links ends at 0, not at its commit (`Activation.NoIncomingLinksStaysZero`).

## Model

| member | source | states |
|---|---|---|
| Util.JsRem | editor.js:36 | JavaScript's `%` for a positive divisor: the remainder has the dividend's sign, lies strictly between -b and b, and agrees with the mathematical remainder for non-negative dividends |
| Util.JsRemIsRemainder | editor.js:36 | the dividend minus the remainder is a multiple of the divisor; with the sign and bounds of `JsRem` this fixes the value for negative dividends too (-1 % 3 is -1) |
| Text.Trim | main.js:55 | `trim()` returns a string that neither starts nor ends with white space |
| Text.TrimCutsOnlySpace | main.js:55 | the trim is a slice of the input with only white space before and after it |
| Text.TrimKeepsCharacters | main.js:55 | the trim has no character the input lacks |
| Text.TrimOfTrimmed | main.js:55 | a string already free of edge white space is its own trim |
| Text.TrimOfPadded | main.js:55 | white space around a trimmed string is exactly what `trim()` removes; white space alone trims to the empty string |
| Text.Split | main.js:55 | `split(',')` yields at least one piece, no piece contains the separator, and joining the pieces with it gives the input back |
| Text.SplitJoin | main.js:55 | splitting a join of separator-free pieces returns exactly those pieces |
| Text.NatToString | acute.js:84 | a natural number's decimal text: digits only, no leading zero (0 is the single digit "0"), reading back to the number |
| Text.IntToString | editor.js:67 | `String(commit)` for the form's commit field: a minus sign exactly for negative values, then the digits of the magnitude with no leading zero; 0 is written "0" |
| Text.ParseInt | editor.js:20 | `parseInt(s, 10)` gives a number exactly when, after leading white space, the text starts with a digit or with a sign followed by a digit; the number is negative only after a minus sign (its value is fixed by the lemmas below) |
| Text.ParseIntOrZero | editor.js:20 | `\|\| 0`: a non-zero result is the parsed number, and the result is 0 exactly when the parse gave `NaN` or 0 |
| Text.ParseDigits | editor.js:20 | there is a number exactly when the text starts with a digit |
| Text.ParseIntSkipsSpace | editor.js:20 | `parseInt` ignores leading white space |
| Text.ParseIntOfBareNumeral | editor.js:20 | a written integer followed by a non-digit reads back as itself |
| Text.ParseIntOfNumeral | editor.js:20 | white space, a written integer, then a non-digit read back as that integer, also through `\|\| 0` |
| Text.ParseIntOrZeroOfNonNumeral | editor.js:20 | text with no digit after the white space and optional sign is `NaN`, which `\|\| 0` turns into 0 |
| Graph.FindIndex | state.js:87 | `nodes.find(n => n.id === id)` gives the first node with the id; when there is none, no node carries it |
| Graph.HasNodeIsMembership | script.js:298 | `nodes.some(n => n.id === id)` holds exactly when some node carries the id |
| Activation.Contribution | script.js:298-302 | a source adds nothing to a target it has no key for; otherwise weight times commit plus alpha times the source's activation (alpha is not scaled by the weight) |
| Activation.Increment | script.js:296-305 | a single source's increment is its contribution; with `IncrementConcat`, `IncrementPermutation` and `IncrementWithoutLinks` below this fixes the sum over any list of sources |
| Activation.Reset | script.js:287 | every activation becomes 0 and nothing else changes |
| Activation.Rounds | script.js:292-311 | k rounds keep the list's length; what else they keep is `RoundsKeepAllButActivation` |
| Activation.Round | script.js:293-310 | one round keeps the node list's length and order and every field except the activation |
| Activation.Propagate | script.js:287-311 | the engine returns the same nodes in the same order, with only activations changed |
| Activation.AccumulateSource | script.js:297-304 | one source's pass over its link keys, visited in any order: every node id keeps its entry, no other key appears, and each entry grows by exactly that source's contribution to it |
| Activation.ComputeIncrements | script.js:293-305 | the handler's accumulation: an entry for every node id and no other; each entry is the sum, over all sources, of `weight * commit + activation * alpha` for the source's link to that id; links to ids with no node add nothing |
| Activation.ApplyIncrements | script.js:308-310 | every node's activation grows by its own id's increment, and nothing else changes |
| Activation.RunRound | script.js:293-310 | accumulating and then applying equals the snapshot round: increments read start-of-round activations only |
| Activation.PropagateInPlace | script.js:276-311 | the handler's body (reset, then exactly `ic` accumulate-then-apply iterations) computes the engine's result |
| Activation.RoundsKeepAllButActivation | script.js:292-311 | any number of rounds writes only activations |
| Activation.PropagateForgetsActivations | script.js:287 | since every activation is reset first, boards differing only in activations give the same result |
| Activation.PropagateIdempotent | script.js:287 | running the engine on its own output gives the same board |
| Activation.IncrementWithoutLinks | script.js:296-305 | a target that no source links to collects an increment of 0 |
| Activation.NoIncomingLinksStaysZero | script.js:293-310 | a node with no incoming link ends every run at activation 0 (no self-commit term) |
| Activation.RoundKeepsZero | script.js:293-310 | one round keeps at 0 a node at 0 that no node links to |
| Activation.RoundsKeepZero | script.js:292-311 | a node at 0 with no incoming link stays at 0 through any number of rounds |
| Activation.IncrementPointwise | script.js:299-302 | sources that contribute equally to a target give it equal increments |
| Activation.RoundEquivalent | script.js:296-310 | one round cannot tell apart boards that agree on ids, commits, activations and links to existing ids |
| Activation.RoundsEquivalent | script.js:292-311 | neither can any number of rounds |
| Activation.DanglingLinkIgnored | script.js:298 | removing a link whose target id names no node changes no activation |
| Activation.ContributionShift | script.js:299-301 | setting one link's weight to w moves that source's contribution to the link's target by (w - old weight) times its commit, and its contribution to any other target not at all |
| Activation.IncrementReplaceOne | script.js:296-305 | replacing one source node moves each target's increment by exactly the change in that source's contribution to it |
| Activation.EdgeWeightShiftTarget | script.js:299-302 | a weight change moves the edited target's increment by the weight difference times the source's commit |
| Activation.EdgeWeightShiftOther | script.js:299-302 | a weight change leaves every other target's increment as it was |
| Activation.EdgeWeightShift | script.js:299-302 | changing one link's weight moves its target's increment by exactly the weight difference times the source's commit (alpha is not scaled by the weight), and no other target's |
| Activation.IncrementConcat | script.js:296-305 | a target's increment over a concatenation of sources is the sum of the parts' increments |
| Activation.IncrementPermutation | script.js:296-305 | reordering the sources does not change any increment |
| Activation.MapNodesWithout | script.js:308-310 | the images of a list are the images without its j-th element plus that element's image |
| Activation.MapNodesPermutation | script.js:308-310 | applying a per-node update to two orderings of the same nodes gives two orderings of the same results |
| Activation.RoundPermutation | script.js:293-310 | permuting the nodes before a round permutes the nodes after it |
| Activation.RoundsPermutation | script.js:292-311 | the same holds across any number of rounds |
| Activation.PropagateOrderIndependent | script.js:287-311 | permuting the input permutes the output: the order of the node list does not bias the result |
| Activation.IncrementOfThree | script.js:296-305 | the increment from three sources is the sum of their contributions |
| Activation.SeedRound | script.js:293-310 | one round on the seed graph: app_dev gains 140 plus alpha times its sources' activations, ai_theory gains 50 plus alpha times app_dev's, exercise gains nothing |
| Activation.SeedGraphActivations | script.js:276-311 | on the board an empty save loads (state.js:29-33), three rounds at 0.2 give app_dev, ai_theory and exercise 455.6, 236 and 0 |
| Acute.Lookup | acute.js:104 | a cell reads the stored change, and 0 when the node or the day has no entry |
| Acute.TrackCommitChange | acute.js:10-22 | an unchanged commit leaves the history alone; otherwise today's entry for the node moves by new minus old, starting from 0, the node gains a row, and every other (node, day) reading is unchanged |
| Acute.TrackCommitChangeTwice | acute.js:22 | changes old -> mid -> new on one day leave the same readings as the single change old -> new |
| Acute.HeatColor | acute.js:115-123 | above 20 dark green, 11-20 mid green, 1-10 light green, otherwise grey, each colour exactly on its range |
| Acute.HeatColorIsMonotone | acute.js:115-123 | the colour is the palette entry of the value's level, and the level never decreases as the value grows |
| Acute.MissingEntryShowsEmpty | acute.js:104 | a node or day absent from the history reads 0 and shows the empty colour |
| Acute.ColumnLabels | acute.js:72-88 | exactly four columns labelled Td, D-1, D-2, D-3 |
| Acute.AcuteRow | acute.js:94-127 | a row shows the node's name and one cell per day, coloured with the heat colour of that day's change (so empty exactly when the change is not positive) |
| BoardState.AddNode | state.js:45-61 | exactly one node is appended, with the default name, commit 0, no links, activation 0, colour #000000 and both flags false; it becomes the selection |
| BoardState.Survivors | state.js:66 | the filter never lengthens the list and keeps no node with the deleted id |
| BoardState.SurvivorsMembership | state.js:66 | the filter keeps exactly the nodes without the deleted id |
| BoardState.SurvivorsConcat | state.js:66 | the filter keeps the survivors' relative order |
| BoardState.SurvivorsOfAbsent | state.js:66 | deleting an id no node carries keeps the list as it is |
| BoardState.Unlink | state.js:68-72 | afterwards the node has no truthy link to the id; other links are untouched and no key is added |
| BoardState.DeleteNode | state.js:64-76 | declined: nothing changes; confirmed: no node has the id, no survivor has a truthy link to it, survivors keep their order and every other field and link, and the selection is cleared |
| BoardState.ZeroWeightLinkSurvivesDelete | state.js:68-72 | a weight-0 link to the deleted id is falsy, so it stays, with weight 0 |
| BoardState.DeleteNodeRemovesIncomingLinks | state.js:66-72 | with non-zero weights, a confirmed delete leaves no link keyed by the deleted id |
| BoardState.UpdateNodeContent | state.js:86-95 | an unknown id changes neither nodes nor history; otherwise only the first matching node gets the name and commit, and today's history entry for it moves by new minus old commit |
| BoardState.UpdateNodePosition | state.js:97-104 | only the first matching node moves; an unknown id changes nothing |
| BoardState.UpdateNodePositionLastWins | state.js:97-104 | two moves in a row equal the last one |
| BoardState.UpdateNodeColor | state.js:110-116 | only the first matching node's colour changes; an unknown id changes nothing |
| BoardState.ToggleNodeStar | state.js:118-124 | only that node's starred flag flips |
| BoardState.ToggleNodeAcute | state.js:126-132 | only that node's acute flag flips |
| BoardState.ToggleTwiceRestores | state.js:118-132 | toggling either flag twice restores the state |
| BoardState.UpdateLink | state.js:134-144 | a null weight removes the key and any other weight sets it; other links of the node, other nodes and the selection are unchanged; an unknown source changes nothing |
| BoardState.UpdateLinkSetThenRemove | state.js:134-144 | setting a link then removing it equals removing it |
| BoardState.BackFill | state.js:36-41 | missing colour, starred, acute and activation get #000000, false, false and 0; defined values are kept |
| BoardState.BackFillOfSaved | state.js:36-41 | a node written with every field reads back as itself |
| BoardState.InitializeState | state.js:20-43 | a non-empty saved list is kept (else the three seeds are used), node by node back-filled; the board is never empty |
| BoardState.InitializeStateReloads | state.js:20-43 | saving a loaded board and loading it again gives the same board |
| Editor.CycleUp | editor.js:36 | "up" maps 1 -> 2, 2 -> 3, 3 -> 1 and takes any non-negative weight into {1, 2, 3} |
| Editor.CycleDown | editor.js:36 | "down" maps 1 -> 3, 2 -> 1, 3 -> 2 and takes any weight of at least -1 into {1, 2, 3} |
| Editor.CycleInverse | editor.js:36 | up and down are inverse on {1, 2, 3}, and three steps either way return to the start |
| Editor.CycleUpPeriodic | editor.js:36 | for non-negative weights "up" depends only on the weight modulo 3 |
| Editor.NewWeight | editor.js:35-36 | the new weight is `NaN` exactly when the target is not a key, and otherwise the cycled weight in the button's direction |
| Editor.LinksTableClick | editor.js:25-44 | no invocation without a selected existing node or a button; a delete button emits `("delete-link", source, target)` for exactly the clicked target; a weight button emits `("update-weight", source, target, new weight)` |
| Editor.LinksTableClickCorrected | main.js:35 | the same invocations with the arguments in the callback's declared order `(sourceId, targetId, weight)` |
| Editor.LinkRows | editor.js:57-73 | the table is hidden without a selected existing node; otherwise it has a row for exactly the links whose target id names a node, with that link's weight and the name of the first node carrying the target id |
| Editor.SubmitForm | editor.js:14-23 | the save callback fires exactly when the id field names a node, with the name as typed and the commit read by `parseInt(..., 10) \|\| 0` |
| Editor.SubmitUnchangedForm | editor.js:65-67 | submitting the form as the panel filled it saves the node's own id, name and commit |
| Editor.SubmitNonNumeralSavesZero | editor.js:20 | a blank commit field, or one not starting with a number, saves 0 |
| Script.LinksTableEdit | script.js:240-262 | the inline handler equals `updateLink` with the cycled weight (weight button) or with no weight (delete button); it does nothing without a selected existing node; it fails only for a target that is not a key |
| Script.LinksTableEditKeepsWeightRange | script.js:250-252 | a weight edit on a weight in {1, 2, 3} succeeds and leaves the link in {1, 2, 3} |
| Script.SaveForm | script.js:331-341 | only the node named by the id field gets the name and the parsed commit; an unknown id changes nothing |
| Script.SaveFormMatchesSplitRevision | script.js:331-341 | the inline save does to the nodes what the split revision's form plus `updateNodeContent` do |
| Script.NewNodeRecord | script.js:264-272 | the pushed node has the default name, commit 0, no links, activation 0, and no colour or flags |
| Script.AddNodeMatchesSplitRevision | script.js:269-271 | back-filled, the pushed and selected node is the one `addNode` creates and selects |
| Board.InitialBoard | board.js:5-7 | the board starts at zoom 1, at the given pan, with no panning, dragging or linking under way |
| Board.BoardMouseDown | board.js:34-42 | a left press on the background starts panning from the press position; anything else changes nothing |
| Board.NodeMouseDown | board.js:127-141 | a press inside a node selects it; a left press also starts dragging it |
| Board.NodeContextMenu | board.js:143-152 | a context menu inside a node starts linking with that node as source |
| Board.WindowMouseMove | board.js:77-99 | at most one mode acts, linking before dragging before panning: linking changes nothing, dragging moves only the dragged node by movement / zoom, panning moves the pan by the mouse's travel |
| Board.DragLink | board.js:45-58 | a link is created only from an existing source to a different target without a truthy link, with weight 1; nothing else changes |
| Board.DragLinkOverwritesZeroWeight | board.js:50-55 | a weight-0 link reads as no link, so drawing from its source to its target sets it to 1 |
| Board.DragLinkInvariants | board.js:50-55 | drawing a link never creates a self-link, never rewrites a truthy link, and keeps weights non-zero |
| Board.WindowMouseUp | board.js:44-75 | a release applies the link rule only when linking over a node, and always ends panning, dragging and linking and clears both ids |
| Board.ClampZoom | board.js:110 | `Math.max(0.2, Math.min(2, z))` always lies in [0.2, 2] and keeps values already in range |
| Board.BoardWheel | board.js:101-117 | the zoom after a wheel event lies in [0.2, 2], and the board point under the cursor stays under it |
| Board.CursorPointFixed | board.js:113-114 | rescaling the pan by new / old zoom keeps the cursor's board coordinate |
| Board.BoardClick | board.js:119-125 | a click on the background clears the selection; other clicks change nothing |
| Board.Step | board.js:23-32 | every event keeps the zoom in [0.2, 2] |
| Board.Run | board.js:23-32 | any sequence of events keeps the zoom in [0.2, 2] |
| Board.RunEndingInMouseUpIsIdle | board.js:65-71 | whatever came before, a mouse-up leaves no mode active and no ids set |
| Board.RunKeepsNoSelfLinks | board.js:50 | no sequence of board events creates a self-link |
| App.OnLinkUpdate | main.js:35-38 | `updateLink` gets the three positional arguments unchanged; a source that is not an existing id changes nothing |
| App.ApplyCalls | main.js:35-38 | no invocation changes nothing, and one invocation is the callback's effect |
| App.EditorLinkEditIsLost | editor.js:37 | as written, unless some node has the id "update-weight" or "delete-link", an editor link edit changes nothing |
| App.EditorLinkEditCorrectedMatchesScript | editor.js:32-43 | with the arguments in place, editor link edits do exactly what the single-file revision's handler does |
| App.EditorLinkEditSeedExample | editor.js:37 | on the seed board, "up" on app_dev -> ai_theory leaves weight 1 as written and gives 2 corrected |
| App.KeepNames | main.js:55 | the trimmed non-empty pieces form a well-formed name list no longer than the pieces |
| App.ParseNames | main.js:55 | no parsed name is empty, contains a comma, or has white space at either end |
| App.KeepNamesOfOne | main.js:55 | one piece gives its trim, or nothing when the trim is empty |
| App.KeepNamesConcat | main.js:55 | the names kept from concatenated pieces are the names kept from each part, in order; with `KeepNamesOfOne` this fixes the result for any pieces |
| App.KeepNamesOfBlank | main.js:55 | a blank piece gives no name |
| App.ParseNamesOfPaddedName | main.js:55 | a name with white space around it parses to the bare name |
| App.ParseNamesOfBlanks | main.js:55 | a comma between blanks parses to no name |
| App.KeepNamesOfTrimmed | main.js:55 | a list of well-formed names passes the trim-and-filter unchanged |
| App.ParseNamesOfJoin | main.js:55 | names joined with commas parse back to the same names |
| App.AddNodesAsWritten | main.js:64-70 | `count` default nodes are appended, the k-th at base_x + k * 180 and base_y, the last one selected |
| App.CreateNodesFromCommand | main.js:54-73 | no names: nothing is added; otherwise exactly one node per parsed name, in order and spaced 180 apart, all with the default name |
| App.AddNamedNodes | main.js:66-70 | the corrected loop: the k-th new node is named with the k-th name |
| App.CreateNamedNodesFromCommand | main.js:54-73 | the corrected command: one node per parsed name, each carrying its name |
| App.NamedNodesDifferOnlyInName | main.js:66-70 | the corrected and the as-written loops build the same board apart from names |
| App.CreateNodesDropsNames | main.js:66-70 | `createNodesFromCommand("Read")` names its node with the default name as written, and "Read" when corrected |

## Left out

- Rendering is not modelled: node and arrow drawing, bidirectional-arrow offsets with `sqrt`, the editor and acute panel HTML, and tooltips. It is DOM output.
- The `setTimeout` deferral, button disabling and snackbar messages around propagation are not modelled. They are UI side effects; only the synchronous loop is modelled.
- Persistence is not modelled: `localStorage`, `saveState`, `saveNodePositions`, JSON parsing and the try/catch. The saved list and history are passed in as values.
- `Date.now()` ids, `toISOString()` day keys and `confirm()` are parameters. Ids are not assumed to be unique.
- `exportNodes` is not modelled. It is a file download.
- The board's bounding box, initial centring, script.js's absolute drag offsets and `base_x`/`base_y` arithmetic are parameters or left out. They are screen geometry.
- script.js's own event handlers for pan, drag and mouse-move are not modelled separately; board.js's versions are, and the drag-to-link rule is shared as `Board.DragLink`. script.js's `initialize` (the same three seeds at other coordinates) is not modelled either.
- The acute panel's drag-to-scroll handler is not modelled. It is pure UI.
- ui.js, controls.js and storage.js are not part of this model.
- config.js holds constants only. Its rounds and rate appear as `Activation.ConfigRounds`/`ConfigRate`; its zoom speed and bounds match the constants board.js hard-codes.
- Whitespace is the ASCII subset of ECMAScript's, for both `trim` and `parseInt`.
- Link maps are Dafny maps, so JavaScript's key order in `for ... in` is not modelled. This affects only the links table's row order and the order of additions within one source's links.
- `OnLinkUpdate` and `Script.LinksTableEdit` return `None` for outcomes a `map<string, int>` cannot hold: a non-string key, or a string or `NaN` weight.
- `BoardState.BackFill`: a missing field is modelled as `undefined` only. A stored `null` would escape the source's `=== undefined` checks, and that case is not modelled.
- `Activation.Propagate`: activations are exact reals. The source's IEEE double rounding (for example 455.6 in the seed example) is not modelled.
- `Board.BoardWheel`: pan and zoom are exact reals, not doubles, and the zoom is required to lie in [0.2, 2], which the board keeps from its start at 1.
- Link weights are integers (`map<Id, int>`). In JavaScript they are numbers, and a saved board edited by hand could hold a fractional weight; every weight the program itself writes is an integer: 1 for a new link from a drag (board.js:53), 1 to 3 from cycling in the editor (editor.js:36), and the seed weights.
- `Text.ParseInt`: numbers are unbounded integers. JavaScript's loss of precision above 2^53 is not modelled.
- `Board.WindowMouseMove`: the temporary arrow drawn while linking is not modelled, so linking moves leave the board unchanged.

## Findings

| source | as written | input that shows it | evidently intended | confidence | as-written member | corrected member |
|---|---|---|---|---|---|---|
| editor.js:37 | the links table calls `onLinkUpdate('update-weight', src, tgt, w)` and `onLinkUpdate('delete-link', src, tgt)`, while main.js:35 declares `(sourceId, targetId, weight)`; `updateLink` looks up a node with id "update-weight" or "delete-link", finds none, and changes nothing | seed board, app_dev selected, "up" on its link to ai_theory: the weight stays 1 | the weight cycles to 2 (and delete removes the link), as the single-file revision's handler does | high, not executed | App.EditorLinkEditIsLost | App.EditorLinkEditCorrectedMatchesScript |
| main.js:66 | `names.forEach((name, index) => addNode(x, y))` never uses `name`: every node gets the default name | `createNodesFromCommand("Read")` adds a node named "새로운 목표" | the node is named "Read" | medium, not executed | App.CreateNodesDropsNames | App.CreateNamedNodesFromCommand |
