# A verified model of a visual block editor

The editor lets a user place blocks on a canvas and link them. It then turns the linked
blocks into a Python program, and it saves a diagram to an SQLite file and loads it back.
This project models the sequential logic under the Qt layer and proves what that logic
promises.

The source has two worlds of blocks, and the model keeps both:

- **Widget blocks** (`blocks.py`, and the copy of the same class in `main_program.py`).
  Each has a class, an argument and a `child` successor. They are the Dafny class
  `BlockTypes.Block`. The main window's two-state connection machine is the class
  `Editor.Program`.
- **`BaseBlock` graph** (`base_block.py`, used by `interpreter.py` and
  `save_diagram.py`). Blocks are linked by six pointer fields:
  - `child`;
  - `layer_up_block` / `layer_down_block`: composition of a statement;
  - `general_block` / `_lines`: the body of a loop or a condition;
  - `layer_up_additional_block` / `layer_down_additional_block`: an if/elif/else chain.

  The model keeps these blocks as an arena. `Graph.Heap` is a map from a block's id to a
  `Graph.Block` record. A ghost *rank* orders the blocks so that every chain the source
  walks with a `while` loop is finite: downward links and body entries lead to a lower
  rank, upward links to a higher one. Code that only reads the graph is a method whose
  loop is proved against a function over the heap. `delete` and the `lines` setter change
  the graph; they are methods of the class `Diagrams.Diagram`, which holds the heap and
  the set of deleted blocks.

The Python class hierarchy is modelled as a `BlockTypes.BlockClass` value. It holds:

- the class name, which is what the save file stores;
- how the block's own text is built from its argument;
- the three flags the graph code tests: `is_python_function`, being a `BaseGeneralBlock`,
  and having an additional-block chain.

Python's `hash(block)` is the block's id, so it is injective.

Modules:

- `Util`: `Option`, `'\n'.join`, `split('\n')`, `replace(c, '')` and `list.remove`.
- `BlockTypes`: blocks.py.
- `Graph`: the arena and the read-only walks of base_block.py.
- `CodeGen`: `get_func`.
- `Diagrams`: the state-changing operations of base_block.py.
- `Interpreter`: interpreter.py.
- `Persistence`: save_diagram.py.
- `Editor`: main_program.py.

## Model

| member | source | states |
|---|---|---|
| BlockTypes.ArgumentOf | blocks.py:116-127 | an argument read back from a block's text gives that text again under the class's text rule |
| BlockTypes.ShownTexts | blocks.py:116-165 | `InputBlock` gives `arg + " = input()"`, `OutputBlock` gives `"print(" + arg + ")"` and `OperationBlock` gives exactly `arg`; each text gives its argument back |
| BlockTypes.SilentTexts | blocks.py:106-155 | `Block`, `StartBlock`, `EndBlock` and `SetValueBlock` give the empty text whatever the argument, and no argument can be read back from it |
| BlockTypes.Block.constructor | blocks.py:14-15 | a new block has the given class, an empty argument and no successor |
| BlockTypes.Block.SetChild | blocks.py:57-59 | `child` becomes the given block; the argument does not change |
| BlockTypes.Block.SetArgument | blocks.py:83-88 | a cancelled dialog leaves `arg` as it was; a confirmed one replaces it with the entered text |
| BlockTypes.Block.Delete | blocks.py:103-104 | deleting a widget block changes nothing |
| Graph.NewBlock | base_block.py:15-27 | a new block has its class, an empty argument, position (0, 0), no links and an empty `_lines` |
| Graph.SetNext | base_block.py:143-144 | re-pointing one link changes that link only; class, argument, position, successor and `_lines` stay |
| Graph.WalkNoDup | base_block.py:217-224 | a chain along any link never visits a block twice |
| Graph.WalkSuffix | base_block.py:217-224 | the chain from the `i`-th member of a chain is the rest of that chain |
| Graph.Follow | base_block.py:226-231 | the loop ends at the last block of the chain, which has no further link, after one step fewer than the chain has blocks |
| Graph.Collect | base_block.py:440-444 | the list gathered along a link is exactly the chain from the block |
| Graph.LayerDepth | base_block.py:217-224 | `layer_depth` is the number of `layer_down_block` links to the bottom; it is 0 exactly when there is no block below |
| Graph.HighestLayer | base_block.py:226-231 | `highest_layer` is the last block up the composition chain, and it has no `layer_up_block` |
| Graph.HighestLayerReachesBlock | base_block.py:226-231 | with symmetric layer links the top of a composition has no block above, and its downward chain passes through the starting block |
| Graph.HighestGeneralBlock | base_block.py:233-238 | `highest_general_block` is the last block up the `general_block` chain, and it has no enclosing block |
| Graph.AdditionalBlocksDepth | base_block.py:452-459 | `additional_blocks_depth` is the number of branch links below the block; it is 0 exactly when there is no next branch |
| Graph.HighestAdditionalBlock | base_block.py:461-466 | `highest_additional_block` is the head of the branch chain, with no branch above it |
| Graph.AllAdditionalBlocksClasses | base_block.py:468-475 | one class per branch of the chain from the block, in link order |
| Graph.WalkClosed | base_block.py:256-262 | the successor of a chain member is a chain member |
| Graph.FreshMembers | base_block.py:256-262 | the inner loop of `lines` keeps exactly the chain members not yet collected, with no duplicate |
| Graph.FlattenProperties | base_block.py:251-266 | `lines` has no duplicates; it holds every entry of `_lines`, and only entries and members of their branch chains |
| Graph.LinesBelow | base_block.py:251-266 | every block in `lines` ranks below the general block, so body recursion ends |
| Graph.GetLines | base_block.py:251-266 | the two nested loops of the `lines` property compute `Lines` |
| Graph.BranchMembers | base_block.py:256-262 | the inner loop collects the members of the branch chain, in link order, that are not yet in the result |
| Graph.FlattenAppend | base_block.py:268-270 | appending to `_lines` only appends to `lines`: the old `lines` stay a prefix, and every appended entry shows up |
| Graph.WalkAgree | base_block.py:217-238 | a chain depends only on the link it follows |
| Graph.FlattenAgree | base_block.py:251-266 | `lines` of given entries depends only on the classes and the `layer_down_additional_block` links |
| Graph.WalkRelinked | base_block.py:431-438 | after a link is redirected to `n`, the chain is the block followed by the old chain from `n` |
| Graph.NewLines | base_block.py:268-270 | new `_lines` whose entries rank below the block keep the ranking and the shape |
| Graph.FewerLines | base_block.py:342-349 | `_lines` cut down to some of its entries keep the ranking and the shape |
| CodeGen.Stripped | base_block.py:203-205 | a python-function block's text loses every `)` |
| CodeGen.CloseBrackets | base_block.py:206-210 | at countdown 0 one `)` is appended per pending entry and the list empties; otherwise the text is unchanged and every entry drops by one |
| CodeGen.Level | base_block.py:199-212 | one turn of the loop: every pending entry equals the current block's `layer_depth`; at the bottom block all pushed entries are closed, otherwise none is |
| CodeGen.ComposedBottom | base_block.py:198-215 | at the bottom block the text built so far plus the bottom text and its closers is the whole composed statement |
| CodeGen.ComposeStatement | base_block.py:194-215 | `get_func`: the own text when there is no block below, otherwise the stripped texts of the chain in order followed by one `)` per python-function block |
| CodeGen.BracketBalance | base_block.py:198-215 | a composed statement holds exactly one `)` per python-function block plus the `)` of the other blocks' own texts |
| CodeGen.GetFunc | base_block.py:373-378 | `get_func` of any block is `CodeText`: the composed statement, or for a general block the head line with `:` and the tab-indented lines of the body blocks |
| CodeGen.ExtendWithBodies | base_block.py:375-377 | the loop over `lines` appends each block's code, split at newlines, with a tab before each piece |
| CodeGen.BodyAppend | base_block.py:375-377 | appending a body block appends its indented lines |
| CodeGen.ComposedNoNewline | base_block.py:194-215 | a composed statement holds no newline when no own text does |
| CodeGen.CodeTextLines | base_block.py:373-378 | splitting a block's code at newlines gives its code lines, none of which holds a newline |
| CodeGen.BodyLinesShape | base_block.py:481-482 | the body part has as many lines as the body blocks have together, and each starts with a tab |
| CodeGen.GeneralCodeShape | base_block.py:477-483 | a general block's code: line 0 is the composed head plus `:`; every further line starts with a tab; the line count is 1 plus the body blocks' line counts |
| Diagrams.EnclosingNoDup | base_block.py:150-155 | `delete` visits no enclosing general block twice |
| Diagrams.EnclosingGenerals | base_block.py:150-155 | the visited general blocks lie in the heap and rank strictly above the block and each other, in visit order |
| Diagrams.WithoutRelated | base_block.py:342-349 | `_lines` after `delete_related_block`; the heap keeps its blocks |
| Diagrams.RelatedEffect | base_block.py:342-349 | nothing changes when the block is not in `lines`; otherwise exactly one entry for it leaves `_lines`, and no other block changes |
| Diagrams.Unlinked | base_block.py:431-439 | the branch splice keeps the ranking, the shape, every block's `Kept` fields and every `_lines` |
| Diagrams.Orphans | base_block.py:436-447 | the blocks the head of a branch chain deletes all lie below it |
| Diagrams.SpliceLinks | base_block.py:432-438 | deleting a middle branch sets `up.down = down` and `down.up = up`; no other block changes |
| Diagrams.SpliceMiddle | base_block.py:432-438 | after that splice, the chain down from the predecessor is the predecessor followed by the old chain below the deleted block, and the chain up from the successor continues with the predecessor's |
| Diagrams.SpliceTail | base_block.py:434-435 | deleting the last branch ends the chain at its predecessor |
| Diagrams.SpliceHead | base_block.py:436-447 | deleting the head of a chain re-links nothing |
| Diagrams.EvolvedTrans | base_block.py:139-155 | two rounds of deletion compose into one |
| Diagrams.EnclosingSuffix | base_block.py:150-155 | after `k` visits, `delete` goes on with the rest of the visit order |
| Diagrams.DeletedFromPersists | base_block.py:335-340 | deleting lower-ranked blocks afterwards undoes nothing of a block's own deletion |
| Diagrams.RelatedEvolved | base_block.py:342-349 | `delete_related_block` for a deleted block takes out only entries for that block |
| Diagrams.LinesAfterSet | base_block.py:268-270 | the `lines` setter keeps the ranking, and the old `lines` are a prefix of the new ones |
| Diagrams.Diagram.MergeBlock | base_block.py:174-177 | the merge goes ahead exactly when there is no block below; otherwise the status bar shows the refusal and nothing changes |
| Diagrams.Diagram.SetLines | base_block.py:268-270 | the setter extends `_lines` by the given blocks and changes nothing else |
| Diagrams.Diagram.DeleteRelatedBlock | base_block.py:342-349 | removes the first entry for the block from `_lines` when it is in `lines`; otherwise nothing changes |
| Diagrams.Diagram.Detach | base_block.py:143-144 | the block above no longer points down at the block; nothing else changes |
| Diagrams.Diagram.UnlinkAdditional | base_block.py:431-447 | the splice of the additional-block `delete`; the blocks it returns are exactly the rest of the chain below a head |
| Diagrams.Diagram.DeleteBase | base_block.py:139-155 | marks the block deleted, detaches it from the block above and deletes the chain below; each enclosing general block loses one entry for it. Every newly deleted block lies in `scope`, a closed set that holds the block. A `layer_down_block` is cleared only in the block above a deleted block. `_lines` lose only entries of deleted blocks. Class, argument, position, `child`, `layer_up_block` and `general_block` never change |
| Diagrams.Diagram.DetachAndDeleteBelow | base_block.py:143-149 | after detaching, every block below on the composition chain is deleted |
| Diagrams.Diagram.RemoveFromEnclosing | base_block.py:150-155 | the loop over the enclosing general blocks: each loses exactly one entry for the block, and no other entry for it changes |
| Diagrams.Diagram.VisitEnclosing | base_block.py:151-155 | one turn of that loop, ending at the next general block up |
| Diagrams.Diagram.DeleteGeneral | base_block.py:335-340 | the base `delete`, then every block of the body is deleted |
| Diagrams.Diagram.DeleteWithAdditional | base_block.py:426-450 | the general `delete`, then the branch splice, then the deletion of the orphaned branches; the same bounds as DeleteBase on what is deleted and cleared |
| Diagrams.Diagram.DeleteAll | base_block.py:339-340 | every listed block is deleted; only blocks of `scope` become deleted, with the same bounds on cleared links and `_lines` |
| Diagrams.Diagram.Delete | base_block.py:139-155 | dispatch on the block's class; every variant leaves a well-formed diagram, makes `DeletedFrom` hold, and deletes only blocks of `scope`, the least choice of which is the set of blocks reachable from the block |
| Diagrams.ReachClosed | base_block.py:145-149 | the blocks reachable from a block by `layer_down_block`, `_lines` and `layer_down_additional_block` form a closed set |
| Diagrams.ReachLeast | base_block.py:145-149 | every closed set that holds a block holds all blocks reachable from it, so a deletion bounded by every closed `scope` deletes only reachable blocks |
| Diagrams.LinesInClosed | base_block.py:339-340 | the body blocks a general `delete` goes on to lie in any closed set that holds the general block |
| Diagrams.OrphansInClosed | base_block.py:441-447 | the orphaned branches lie in any closed set that holds their head |
| Diagrams.UnlinkedClosed | base_block.py:431-439 | the branch splice keeps a closed set holding the deleted block closed: the new link points at the block below it |
| Diagrams.DetachedEvolved | base_block.py:143-144 | clearing the `layer_down_block` of the block above a deleted block is a step of deletion |
| Interpreter.FirstOf | interpreter.py:12-16 | `None` exactly when no listed block has the class; otherwise the first listed block of that class |
| Interpreter.ChildChain | interpreter.py:53-59 | the `child` chain starts at the block, follows `child` and ends at the first block without one |
| Interpreter.GetBlocksInRightOrder | interpreter.py:53-59 | the loop returns the `child` chain from the Start block, in order |
| Interpreter.HandleErrors | interpreter.py:44-51 | succeeds exactly when an `EndBlock` lies on the `child` chain from the first Start block |
| Interpreter.AddStandartCode | interpreter.py:32-42 | `import traceback` and `try:` go in front and the seven fixed lines after, in order |
| Interpreter.CollectLines | interpreter.py:19-26 | the loop collects the code lines of the chain's top-level blocks only, in chain order |
| Interpreter.ConvertToPy | interpreter.py:11-30 | `convert_to_py` gives `Conversion`: the empty program without both markers, `SequenceError`, or the joined template |
| Interpreter.ConversionWithoutMarkers | interpreter.py:12-13 | with no Start or no End block among the blocks the program is `''` |
| Interpreter.ConversionError | interpreter.py:44-51 | `SequenceError` exactly when both markers are present and no End block lies on the chain from Start |
| Interpreter.ConversionLines | interpreter.py:28-42 | the program has `n + 9` lines: `import traceback`, `try:`, each top-level line behind one tab, then the seven closing lines |
| Interpreter.TemplateLines | interpreter.py:29-30 | the template joined and split again gives back its lines |
| Interpreter.MarkerLine | interpreter.py:26-28 | an unmerged Start or End block adds one empty line, which becomes a tab-only line |
| Interpreter.TopLevelOnly | interpreter.py:19-25 | keeps only the blocks that start a statement of their own |
| Interpreter.OnlyTopLevelCounts | interpreter.py:19-25 | blocks with a `layer_up_block`, a `general_block` or a previous branch add no lines |
| Interpreter.TopLevelNoNewline | interpreter.py:26 | every collected line is free of newlines |
| Persistence.TypeTable | save_diagram.py:10-14 | codes `1..n` in class-listing order, each paired with its class name |
| Persistence.Names | save_diagram.py:10-11 | the class names, in listing order |
| Persistence.CodeOf | save_diagram.py:57-58 | `None` exactly when no type row has the name; otherwise the code of the first such row |
| Persistence.NameOf | save_diagram.py:101-103 | `None` exactly when no type row has the code; otherwise the name of the first such row |
| Persistence.ClassNamed | save_diagram.py:106 | `None` exactly when no class has the name; otherwise a class of that name |
| Persistence.TypeRoundTrip | save_diagram.py:57-58 | with unique class names, a class saves as its position plus one and that code loads as the same class |
| Persistence.SavedCode | save_diagram.py:57-58 | the `k`-th name's code is `k + 1` when names are unique |
| Persistence.StoredName | save_diagram.py:101-103 | code `k + 1` names the `k`-th class |
| Persistence.NamedClass | save_diagram.py:106 | looking up a class by its own name gives the class |
| Persistence.Encoded | save_diagram.py:54-87 | saving yields one row per block |
| Persistence.EncodedOk | save_diagram.py:54-87 | saving succeeds exactly when no block is listed twice and every class has a type code |
| Persistence.EncodedIds | save_diagram.py:55 | each saved row is keyed by its block's id, in order |
| Persistence.EncodedUnique | save_diagram.py:54-87 | the saved rows have distinct ids |
| Persistence.EncodedAt | save_diagram.py:57-87 | each row stores its block's type code, position, argument, links (NULL when absent), body ids for a general block, and branch ids for a block with branches |
| Persistence.EncodedStops | save_diagram.py:54-87 | after a failure the whole save fails with that error |
| Persistence.Database.constructor | save_diagram.py:17-43 | a file without tables has no rows |
| Persistence.Database.Create | save_diagram.py:17-43 | `create_data_base`: the type table is `TypeTable`, and the block table is empty |
| Persistence.Database.FillDataBase | save_diagram.py:46-87 | empties the block table, creating the tables if missing, then holds exactly the saved rows; a failure reports its error and leaves the rows that were there before |
| Persistence.Database.LoadDataBase | save_diagram.py:90-144 | a file without tables fails at the first query; otherwise the four load phases give `Load` of the stored tables, and the returned list holds the stored ids in row order |
| Persistence.ReadTypeNames | save_diagram.py:97-104 | the type name of every row, or the first unknown code |
| Persistence.CreateBlocks | save_diagram.py:105-109 | a new block of the named class per row, under the stored id, or the first unknown class; the ids in row order |
| Persistence.MoveBlocks | save_diagram.py:112-114 | every block moved to its stored coordinates |
| Persistence.SetArguments | save_diagram.py:117-120 | every block given its stored argument |
| Persistence.SetRelations | save_diagram.py:123-138 | every block's relations resolved in row order; the first failing row ends the load |
| Persistence.TypeNames | save_diagram.py:97-104 | succeeds exactly when every code names a type; then there is one name per row, the one its code names |
| Persistence.Instantiated | save_diagram.py:105-109 | succeeds exactly when every name is a class; then the map's keys are exactly the stored ids |
| Persistence.Moved | save_diagram.py:112-114 | the moved map has the same keys |
| Persistence.Named | save_diagram.py:117-120 | the named map has the same keys |
| Persistence.Prepared | save_diagram.py:97-120 | after phases one to three the keys are exactly the stored ids |
| Persistence.Resolve | save_diagram.py:131-132 | a stored id becomes that block when it has a row, and `None` otherwise |
| Persistence.FirstMissing | save_diagram.py:135 | `None` exactly when every body entry has a row; otherwise a body entry without one |
| Persistence.Linked | save_diagram.py:123-138 | a finished phase four keeps the map's keys |
| Persistence.InstantiatedAt | save_diagram.py:105-109 | each stored id maps to a new block of its row's class |
| Persistence.MovedAt | save_diagram.py:112-114 | each row's block gets the row's coordinates; blocks without a row stay |
| Persistence.NamedAt | save_diagram.py:117-120 | each row's block gets the row's argument; blocks without a row stay |
| Persistence.LinkedOk | save_diagram.py:123-138 | phase four succeeds exactly when every row's relations read back |
| Persistence.LinkedAt | save_diagram.py:123-138 | after phase four each row's block is its read-back record, and other blocks stay |
| Persistence.LinkedFails | save_diagram.py:123-138 | a failure of phase four carries the error of some row |
| Persistence.PreparedAt | save_diagram.py:97-120 | phases one to three succeed exactly when every code names a class; each row's block has that class, the row's position and the row's argument |
| Persistence.LoadAt | save_diagram.py:90-144 | a load succeeds exactly when phases one to three do and every row reads back; a failure after phase three is some row's error |
| Persistence.RelinkedFields | save_diagram.py:129-138 | each relation the class has is resolved from its cell, and the body extends `_lines` |
| Persistence.LoadedBlock | save_diagram.py:105-138 | each block of a successful load has its stored class, position and argument; a scalar link is kept when its target has a row and is `None` otherwise; a body is the stored list, all of whose entries have rows |
| Persistence.MissingLineFails | save_diagram.py:135 | a body entry with no row makes the whole load fail, where a scalar relation would only become `None` |
| Persistence.RowReadBack | save_diagram.py:66-81 | a saved row read back onto a fresh block of the same class, position and argument gives the block back with `lines` in `_lines`, unless the source's reading meets an empty body |
| Persistence.SavedRows | save_diagram.py:46-87 | a well-formed diagram saves as one row per block, in order; the ids are distinct and exactly the blocks, and each code names the block's class |
| Persistence.ClassesCoded | save_diagram.py:57-58 | every listed block's class has a code, and that code loads as the class |
| Persistence.ReadBack | save_diagram.py:123-138 | every saved row reads back as its block with flattened `lines` |
| Persistence.LoadedAs | save_diagram.py:90-144 | a load gives exactly the heap whose keys are the stored ids and whose blocks are the rows read back |
| Persistence.RestoredBy | save_diagram.py:46-144 | loading a save gives the diagram back, unless the source's reading meets an empty body |
| Persistence.RoundTrip | save_diagram.py:46-144 | save then load gives back every block, with its class, position, argument and links, and its flattened `lines` as `_lines`, as long as no general block has an empty body; the loaded list is the saved list of blocks, in order |
| Persistence.EmptyBodyFails | save_diagram.py:133-135 | as written, a general block with an empty body makes the load of its own save fail |
| Persistence.StopsAtEmptyBody | save_diagram.py:133-135 | rows that can only fail on an empty body make the load fail on an empty body |
| Persistence.RoundTripCorrected | save_diagram.py:133-135 | with `"[]"` read as an empty list, every well-formed diagram loads back exactly, in the saved order |
| Editor.SegmentsJoinChildren | main_program.py:192-202 | one line per block with a successor: every line joins a listed block to its `child`, and every such block has its line |
| Editor.SegmentsAppend | main_program.py:195-201 | lines follow list order |
| Editor.Program.constructor | main_program.py:148-155 | a new window is `PLACING`, with no connecting parent, no blocks and no lines |
| Editor.Program.AddBlock | main_program.py:165-175 | in `PLACING`, exactly one new block of the given class joins the end of `blocks`; otherwise `blocks` is unchanged |
| Editor.Program.ChangeState | main_program.py:209-211 | the state becomes the given one |
| Editor.Program.StartConnection | main_program.py:213-216 | the state is `CONNECTING`, and the parent is the block whose action fired |
| Editor.Program.RecalculatePosition | main_program.py:192-202 | the drawn lines are `Segments(blocks)` |
| Editor.Program.EndConnection | main_program.py:218-226 | outside `CONNECTING` it only returns to `PLACING` and sets no `child`; in `CONNECTING` the parent's `child` becomes the clicked block, the parent is cleared, the state is `PLACING` and the lines are redrawn |

## Left out

- Qt is not modelled: widgets, painting, menus, drag and drop, signals (`deleted`, `merged_new_block`, `clicked`), `eventFilter`, `deleteLater`'s destruction, `resize_block`, `move_*` and every geometry computation. A drawn line is the pair of blocks it joins.
- The `set_argument` width rule in `blocks.py:89-93` is not modelled, because it depends on font metrics. The dialog's text and whether it was confirmed are parameters.
- `main_program.py` has its own `Block` class (lines 62-89) with the same `arg` and `child` fields; `BlockTypes.Block` models both. `Block.set_child` of main_program.py:87-89 is `BlockTypes.Block.SetChild`.
- `Editor.Program.AddBlock`: the `issubclass` guard of main_program.py:169-170 compares two metaclasses and always holds, so it is not modelled.
- `Editor.Program.EndConnection`: with `CONNECTING` set and no parent, the source raises `AttributeError`. The model returns `done == false` and changes nothing.
- Interpreter.ConvertToPy: the `child` walks of interpreter.py:47-49 and 56-58 never end on a `child` cycle reachable from the first Start block. `end_connection` (main_program.py:218-226) lets a user build one, for instance by making a block its own `child`. The model requires a rank (`ChildRanked`, `StartRanked`) on the blocks walked from that Start block, so it covers every diagram on which the source returns, and only those. Cycles elsewhere in the diagram are allowed.
- `Interpreter.execute` (interpreter.py:61-65) writes a file and starts a process; it is not modelled.
- `Interpreter.HandleErrors` takes the listed blocks and finds the first Start block itself. The source passes the chain, whose first block is that same Start block.
- `BaseBlock.delete_related_block` (base_block.py:157-160) is not modelled. `delete` only calls it on a `general_block`, which is always a general block, so the override at base_block.py:342-349 runs instead.
- The branch insertion and line insertion logic lives in a `program` module that is not part of this model.
- SQL is not modelled: the statement text, the sqlite connection and `fetchone()` on an empty result. The tables are sequences of records, and a missing type row is an error value.
- Persistence.EncodedOk: save_diagram.py:62 puts an argument into the INSERT text between `"` quotes without escaping it. An argument holding `"` (an Output block `"hi"`, an Operation block `print("hi")`) then usually makes the statement fail, and a few such arguments are stored altered. The model treats every argument as storable, so its success condition is wider than the source's.
- Persistence.RoundTrip: holds only for diagrams whose arguments hold no `"`, for the quoting reason above; the same applies to Persistence.RoundTripCorrected.
- Persistence.Database.FillDataBase: a failing INSERT caused by such an argument raises `sqlite3.OperationalError`. The `with` block then rolls back the whole save, including the DELETE, and the file keeps its old rows. The model has no such error, so it does not capture this failure.
- The `DataType` column is not modelled; it is always NULL for the blocks of this model.
- `inspect.getmembers` and `getattr(blocks, …)` are replaced by a given list of classes. `hash()` is the block's id, and `hash(None)` is a parameter that no block's id equals.
- `load_data_base` iterates phases two to four over `hashed_blocks.items()`, and each query takes the first row with that id. The model iterates the rows in insertion order. The two agree because the block table's key keeps ids unique (`Database.Valid`).
- Persistence.SetRelations: the per-attribute `hasattr`/`isinstance` loop of save_diagram.py:129-138 is modelled by the function `Relinked` over the class flags, not as a loop over attribute names.
- Diagrams.Diagram.DeleteWithAdditional: the contract does not state that the orphaned branches end up deleted. They are the chain below the block in the heap left by deleting its body, and that deletion can re-link the chain, so no function of the heap before the call gives them. A ghost out-parameter could return them, but only as some list, unrelated to the heap before the call. `DeleteAll` states that every block it is given ends up deleted.
- Diagrams.Evolved: the branch links (`layer_up_additional_block` / `layer_down_additional_block`) are constrained only by the ranking, and by `Closed` for the delete methods' `scope`. The splice makes them asymmetric, so no stronger "changes only around deleted blocks" claim holds for them.
- Diagrams.Evolved: a cleared `layer_down_block` belongs to the block above some block of the final deleted set, which may include blocks deleted before the call.
- Diagrams.Diagram.DeleteBase: a deleted block stays in the heap, as the Python object stays referenced; the set `gone` records the call to `delete`.
- The `print(self.general_block.lines)` of base_block.py:427-428 is console output and is not modelled.

## Findings

| source | as written | input that shows it | evidently intended | confidence | as-written member | corrected member |
|---|---|---|---|---|---|---|
| save_diagram.py:133-135 | a general block's body is saved as `"[]"` when it is empty; loading splits `""` into `['']`, and `int('')` raises `ValueError` | a diagram with a loop or condition block whose body holds no block | an empty body is read back as an empty list, and the diagram loads back | not executed | Persistence.EmptyBodyFails | Persistence.RoundTripCorrected |
