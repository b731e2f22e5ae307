# Block capabilities, block registry and per-frame world logic of a 2D multiplayer client

This Dafny project models the logic core of a tile-based SDL game client, with rendering, networking and file I/O taken out:

- **Block states** (`block_states.dfy`): the `BlockState` bit mask (`NONE 0`, `COLLISION 1`, `BREAKABLE 2`, `ENTERABLE 4`) as an `int` in `0..7`. A flag test is `Has`, and the bitwise OR is `Or`. `Or` is proved equal to the hardware OR on 3-bit vectors.
- **Components** (`components.dfy`): `CollisionComponent`, `Enterable` and `Breakable` become the constructors of one `Component` datatype. The class of a component is its `Kind`. The `dynamic_cast` scan of `getComponent<T>` is the first-match lookup `FirstOfKind`. `Args` is the argument pack that `addComponent<T>(args...)` forwards to a constructor.
- **Block** (`blocks.dfy`): `addComponent<T>` drops a second component of a kind the block already has. The model proves that blocks keep at most one component per kind, so at most three components. The lookup is also proved equal to a tagged-variant map from kind to component, and `addComponent` is proved to be insert-if-absent on that map.
- **Legacy block** (`legacy_blocks.dfy`): the older client header's `Block`, whose `addComponent` always appends. Duplicates do arise. Even so, after the same additions every lookup answers exactly as it would on the deduplicating block.
- **Block factory** (`block_factory.dfy`): the owning `name -> Block` map and the `type -> Block*` index. The index holds the name key instead of a pointer. The index is filled with `emplace`, so the first block registered for a type is the one resolved by type. The registry invariant `Valid` says every index entry names a registered block of that type. It is preserved by `addBlock` and `addComponentToBlock`.
- **World frame** (`configs.dfy`, `movement.dfy`, `command_line.dfy`, `net_sync.dfy`, `map_window.dfy`, `interaction.dfy`, `world.dfy`): one iteration of the frame loop as pure state-transition functions. It covers:
  - the movement resolver, which resolves one axis at a time and rolls back an axis on `COLLISION`;
  - the command-line sub-state machine;
  - the network-sync latches;
  - the clamped tile window of the renderer;
  - the interaction flags.

External queries and outcomes are parameters:
- The tile-overlap query `checkBlockState` on the player's hitbox is the function `probe`. It returns a mask in `0..7`.
- The result of the texture send is an input.
- The map after a hot reload is an input.
- Network calls are modelled as a list of emitted messages.
- A command submitted to the command system is the string it is handed.

Positions are integers, and the per-frame displacement `speed * dt` is an integer `step`. The camera position used by the renderer is an input. C++ integer division truncates toward zero; it is modelled by `MapWindow.TruncDiv`.

Two behaviours of the registry and the sync are easy to misread:
- A second block registered for a type does not replace the first. The type index is filled with `unordered_map::emplace`, which never overwrites, so the first fresh registration wins (`BlockFactory.TypeIndexIsStable`, `BlockFactory.FirstFreshRegistrationWins`).
- `updateServer` retries only the texture send. The map latch is set after one call whose result is ignored, so the map is sent at most once whatever happens to that send (`NetSync.MapSentAtMostOnce`).

The interaction checks do not look at the player's position. They query the world hitbox, which only the two `updateWorldHitbox` calls of the movement resolver move, and the second of those runs before the vertical rollback. So after a blocked vertical move the hitbox stays on the rejected tile, and in command mode it stays where it was. The model keeps the hitbox as its own position in `Movement.Player`; `World.StaleHitboxAllowsBreak` shows a player who never moved being offered to break the tile it bumped into.

The render loop reads `mapData[y][x]` for `x` below the width of row 0. Its safety therefore depends on no row being narrower than the first. `MapWindow.RenderTiles` states this as its precondition and proves every access in range.

## Model

| member | source | states |
|---|---|---|
| BlockStates.FromFlags | include/core/block.h:31-36 | the mask built from three flags lies in 0..7, and each flag reads back independently |
| BlockStates.Or | include/core/block.h:31-36 | the OR of two masks lies in 0..7 and has a flag set iff either operand has it |
| BlockStates.FlagsAreDistinctBits | include/core/block.h:31-36 | COLLISION, BREAKABLE and ENTERABLE are distinct single bits; NONE has none of them |
| BlockStates.MaskIsItsFlags | include/core/block.h:31-36 | every mask in 0..7 is determined by its three flag tests |
| BlockStates.OrIsBitwiseOr | include/core/block.h:31-36 | the flag-wise OR equals the bitwise OR of C on the 3-bit values |
| Components.Construct | include/core/block.h:88-114 | building a component of kind k from an argument pack yields a component of kind k whose fields come from that pack |
| Components.FirstIndexOf | include/core/block.h:148-157 | the scan returns the first position holding kind k, or none exactly when no component has kind k |
| Components.FirstOfKind | include/core/block.h:148-157 | the lookup returns null iff no component has kind k; otherwise it returns a component of kind k with no earlier one of that kind |
| Components.FirstOfKindPrefix | include/core/block.h:151-155 | components after the first match never affect the lookup |
| Components.FirstOfKindAppendOther | include/core/block.h:151-155 | appending a component of another kind leaves the lookup for k unchanged |
| Components.FirstOfKindAppendNew | include/core/block.h:151-155 | appending a component of a missing kind makes the lookup return it |
| Blocks.NewBlock | include/core/block.h:124 | a new block has the given type and name and no component of any kind |
| Blocks.GetComponent | include/core/block.h:148-157 | `getComponent<T>` is null iff the block has no component of the kind, and otherwise returns a component of that kind with no earlier one of that kind |
| Blocks.AddComponent | include/core/block.h:136-143 | an existing kind leaves the block unchanged; otherwise exactly that component is appended; type and name are untouched; one-per-kind is preserved; the kind is afterwards found |
| Blocks.AddThenGet | include/core/block.h:136-157 | after `addComponent`, lookups of other kinds are unchanged, and the added kind returns the new component only if it was missing |
| Blocks.AddAllKeepsKindsUnique | include/core/block.h:136-143 | after any sequence of `addComponent` calls a block holds at most one component of each kind |
| Blocks.UniqueKindsAtMostThree | include/core/block.h:136-143 | a block with one component per kind has as many kinds as components, so at most three |
| Blocks.AtMostThreeKinds | include/core/block.h:88-114 | there are only three component kinds |
| Blocks.GetComponentIsKindMapLookup | include/core/block.h:148-157 | the linear first-match scan equals lookup in the tagged-variant map from kind to first component |
| Blocks.AddComponentIsInsertIfAbsent | include/core/block.h:136-143 | `addComponent` is insert-if-absent on the tagged-variant map |
| BlockFactory.BlockOfType | include/core/block.h:165-166 | under the registry invariant, the type index resolves t iff t is indexed, to a registered block of type t |
| BlockFactory.EmptyIsValid | include/core/block.h:165-166 | an empty registry satisfies the registry invariant |
| BlockFactory.AddComponentsToBlock | include/core/block.h:191-197 | adding the listed kinds keeps the block's type and name and keeps one component per kind |
| BlockFactory.AddComponentsToBlockLookup | include/core/block.h:191-197 | each listed kind the block lacked ends up holding the component built from the shared argument pack; kinds already present are untouched; unlisted missing kinds stay absent |
| BlockFactory.AddBlock | include/core/block.h:180-189 | a registered name changes nothing; a fresh name adds exactly one block of that type and name and leaves the others alone; an indexed type keeps its index entry; an unindexed type is indexed to the new name; the registry invariant is preserved |
| BlockFactory.AddBlockComponents | include/core/block.h:186-188 | a freshly registered block holds exactly the listed kinds, each built from the shared arguments |
| BlockFactory.AddBlockIdempotent | include/core/block.h:182-185 | registering the same name twice equals registering it once |
| BlockFactory.AddBlockKeepsTypeResolution | include/core/block.h:186-187 | a later registration never changes the block an already indexed type resolves to |
| BlockFactory.AddComponentToBlock | include/core/block.h:170-177 | an unindexed type changes nothing; otherwise exactly the indexed block gets `addComponent`, nothing else changes, and the invariant holds |
| BlockFactory.RegisterAll | include/core/block.h:180-189 | any sequence of registrations preserves the registry invariant |
| BlockFactory.TypeIndexIsStable | include/core/block.h:187 | once a type is indexed, no sequence of later registrations re-points it |
| BlockFactory.FirstFreshRegistrationWins | include/core/block.h:186-187 | the type resolves to the first registration of that type whose name was fresh |
| BlockFactory.RegisterAllSplit | include/core/block.h:180-189 | registering two lists in a row equals registering their concatenation |
| BlockFactory.FenceScenario | include/core/block.h:180-189 | two fences registered for one type: both are stored, the type resolves to the first, and it holds its collision component |
| LegacyBlocks.AddComponent | client/include/core/block.h:90-95 | `addComponent` always grows the list by exactly one, keeps the earlier components and puts the new one last |
| LegacyBlocks.GetComponent | client/include/core/block.h:100-109 | `getComponent<T>` returns null iff no component has the kind, and otherwise a component of that kind with no earlier one of that kind |
| LegacyBlocks.AddThenGetNonNull | client/include/core/block.h:90-109 | after `addComponent<T>`, `getComponent<T>` is non-null |
| LegacyBlocks.SecondAddInvisible | client/include/core/block.h:94-106 | adding a second component of a kind does not change what `getComponent` returns |
| LegacyBlocks.DuplicatesArise | client/include/core/block.h:90-109 | two collision components can coexist on one block; the lookup returns the first |
| LegacyBlocks.AddAll | client/include/core/block.h:90-95 | a sequence of legacy adds appends exactly those components in order |
| LegacyBlocks.AddKeepsSameLookups | client/include/core/block.h:90-109 | one always-append step and one deduplicating step keep two lists answering every lookup alike |
| LegacyBlocks.LookupsAgreeWithDedup | client/include/core/block.h:90-109 | after the same additions, the legacy list answers every lookup as the deduplicating block does |
| LegacyBlocks.LegacyLookupsMatchCurrent | client/include/core/block.h:90-109 | from empty blocks, legacy and current blocks give identical lookups after any sequence of additions |
| Movement.HandlePlayerMovement | client/src/core/world.cpp:68-109 | in command mode the player is unchanged; otherwise walking is "W, A, S or D held", D wins over A for facing, x keeps its original value iff the probe at the candidate x reports COLLISION, y is decided the same way by a probe at the resolved x, and the hitbox is left at the resolved x and the candidate y |
| Movement.NoKeysNoMove | client/src/core/world.cpp:82-108 | with no key held, position and facing are unchanged and walking is false, whatever the map reports |
| Movement.OppositeKeysCancel | client/src/core/world.cpp:83-87 | A and D together cancel horizontally and leave the player facing right |
| Movement.AxesMoveAllOrNothing | client/src/core/world.cpp:93-108 | each axis ends at either its original or its candidate coordinate |
| Movement.StaysOutOfCollision | client/src/core/world.cpp:93-108 | a player whose starting position is free of COLLISION ends the move in a free position |
| Movement.SlidesAlongWall | client/src/core/world.cpp:93-108 | a diagonal move blocked on x but free on y keeps x and moves y |
| Movement.HitboxLagsAfterRollback | client/src/core/world.cpp:101-108 | after a move the hitbox sits on the player iff the vertical candidate was accepted or there was no vertical step |
| CommandLine.HandleCommandInput | client/src/core/world.cpp:111-133 | Return clears the text, leaves command mode and submits the text; Escape clears and leaves without submitting; Backspace on empty text is a no-op and otherwise removes exactly the last character; other keys append their character iff they are typeable and otherwise change nothing |
| CommandLine.HandleKeyDown | client/src/core/world.cpp:165-174 | outside command mode only '/' matters: it opens the command line and appends '/'; inside, '/' appends "//" and closes it; other keys go to the editor |
| CommandLine.DigitsAreInPrintableRange | client/src/core/world.cpp:128-129 | the 0..9 range is contained in SPACE..z, so the typeable keys are exactly codes 32..122 |
| CommandLine.HandleKeyDownKeepsWellFormed | client/src/core/world.cpp:111-174 | every key press keeps the command text within characters 32..122, and so does every submitted text |
| CommandLine.DispatchedCommandsWellFormed | client/src/core/world.cpp:111-174 | over any run of key presses, every text handed to the command system holds only characters 32..122 |
| CommandLine.HelpScenario | client/src/core/world.cpp:111-174 | typing "/help" and Return submits exactly "/help" and leaves an empty, closed command line |
| CommandLine.SlashTwiceKeepsText | client/src/core/world.cpp:165-174 | closing the command line with '/' does not clear it: "/" then "/" leaves "///" |
| NetSync.UpdateServer | client/src/core/world.cpp:333-368 | taking the three branches in turn, the last reported position is afterwards the current one; the texture latch closes iff it was closed or a ready texture was sent successfully; the map latch closes iff it was closed or the map is non-empty, whatever happened to the map send |
| NetSync.UpdateServerMessages | client/src/core/world.cpp:333-368 | a move is reported iff the position differs from the last report; a texture attempt is made iff the latch is open and a texture is ready; the map is sent iff its latch is open and it is non-empty; every message carries this frame's data |
| NetSync.MapSentAtMostOnce | client/src/core/world.cpp:361-368 | over any run of frames the map is sent at most once, never once latched, and the latch is closed at the end iff it was closed before or the map was sent |
| NetSync.TextureNeverResent | client/src/core/world.cpp:343-359 | once a texture send has succeeded, no texture message is ever emitted again |
| NetSync.FailedSendsRetry | client/src/core/world.cpp:343-359 | while every send fails, the latch stays open and the texture is re-sent on every frame in which it is ready |
| NetSync.SuccessLatches | client/src/core/world.cpp:343-359 | a successful first send is the only texture message of the whole run |
| MapWindow.TruncDiv | client/src/core/world.cpp:272-275 | C++ integer division by a positive divisor truncates toward zero |
| MapWindow.VisibleWindow | client/src/core/world.cpp:263-275 | the clamped loop bounds satisfy 0 <= startX, endX <= width of row 0, 0 <= startY and endY <= number of rows |
| MapWindow.WindowCoversView | client/src/core/world.cpp:268-307 | every map column and row whose pixels meet the clipped view lies inside the loop bounds |
| MapWindow.RowDrawsExactly | client/src/core/world.cpp:312-325 | a row's draws are exactly its cells in range whose value minus one is a valid atlas slot |
| MapWindow.WindowDrawsExactly | client/src/core/world.cpp:310-326 | the window's draws are exactly the cells inside the window whose value minus one is a valid atlas slot |
| MapWindow.RenderTiles | client/src/core/world.cpp:309-326 | when no row is narrower than the first, every `mapData[y][x]` read is in range, the loops draw the window's drawable cells row by row, and every drawn index is below `tiles.size()` |
| Interaction.CheckIfPosIsEnterable | client/src/core/world.cpp:545-570 | `enterHouse` becomes exactly the ENTERABLE bit; `allowBreak` is untouched |
| Interaction.CheckIfPosIsBreakable | client/src/core/world.cpp:523-543 | `allowBreak` is set when BREAKABLE is set and is never cleared; `enterHouse` is untouched |
| Interaction.CheckFrame | client/src/core/world.cpp:55-56 | after both checks on one mask, `enterHouse` is exactly its ENTERABLE bit and `allowBreak` holds iff it held before or the mask is BREAKABLE |
| Interaction.FlagsOverFrames | client/src/core/world.cpp:523-570 | over any run of frames `enterHouse` reflects only the last frame's mask, and `allowBreak` holds iff it held before or some frame's mask was breakable |
| World.HandleEvent | client/src/core/world.cpp:135-182 | with the command system assumed to leave the world alone: events never move the player or its hitbox or touch the map, latches or flags; Quit closes the loop; a key press is recorded and goes to the command line, submitting what it submits; releasing A or D stops walking; at most one command is submitted |
| World.HandleEvents | client/src/core/world.cpp:38-43 | the polling loop never moves the player, keeps the loop open iff no Quit arrived, and never forgets a pressed key |
| World.Frame | client/src/core/world.cpp:38-58 | a frame submits the commands of its events and keeps the command line they leave, keeps the map unless reloaded, syncs the position from the start of the frame, and sets the interaction flags from the hitbox the previous frame left; outside command mode each axis moves to its candidate unless the probe (y probed at the resolved x) reports COLLISION, walking is "W, A, S or D held", D wins over A for facing, and the hitbox is left at the resolved x and candidate y; in command mode neither player nor hitbox moves |
| World.CommandModeFreezesPlayer | client/src/core/world.cpp:43-69 | if the command line is open after the frame's events, the frame leaves position and facing unchanged whatever keys are held |
| World.SlashSuppressesMovement | client/src/core/world.cpp:43-69 | pressing '/' opens the command line and suppresses that frame's movement even with movement keys held |
| World.FrameReportsStartPosition | client/src/core/world.cpp:34-58 | the move report of a frame describes the position at the start of the frame, because the sync runs before the movement |
| World.FrameKeepsPlayerFree | client/src/core/world.cpp:45-108 | a player who starts a frame free of COLLISION on the reloaded map ends it free |
| World.StaleHitboxAllowsBreak | client/src/core/world.cpp:55-108 | a step down into a solid, breakable tile is rolled back, yet the next frame sets `allowBreak`, because the hitbox stayed on that tile |

## Left out

- SDL rendering and window plumbing are not modelled; they produce only pixels. This covers the frame timing (`SDL_GetTicks`, `SDL_Delay`), texture and font loading, sprite animation, the border and clip drawing, the draw-colour helpers, remote-player drawing, `renderPlayer` and `renderCommandInput`.
- The teardown on the quit event (`SDL_DestroyRenderer`, `SDL_DestroyWindow`, `SDL_Quit`) is not modelled; the model records only that the loop closes.
- Floating-point positions, `speed * dt`, and the float-to-int truncation in the camera maths are not modelled. Positions are integers, the displacement is a given `step`, and the camera position is an input of `MapWindow.VisibleWindow`.
- `checkBlockState`, `getBlockAtPosition`, `getBlockTypeFromString` and `getBlockName` are declared without their bodies. So are the print and describe helpers and the `BlockFactory()` constructor. The region query is the `probe` parameter, and the other functions are not modelled.
- `Player::updateWorldHitbox` is declared without a body. The model assumes that with zero offsets it puts the hitbox at the player's position, and that nothing else moves the hitbox.
- The two non-template overloads `addBlock(BlockType, std::string)` and `addBlock(BlockType)`, and the `Block(BlockType)` constructor, are declared without bodies and are not modelled.
- The component constructors are declared without bodies. `Components.Construct` therefore models every constructor call as taking its fields from one `(flag, numHits, multiplier)` argument pack. The default constructors and the two-argument `Breakable` constructor are not modelled.
- Blocks.NewBlock: assumes the `Block(type, name)` constructor leaves the component list empty, because that constructor is declared without a body.
- The network `Client` is represented by the emitted messages and a send result given as input. `getPlayersSafe`, with its concurrent access, and `handlePlayerJoined` during setup are not modelled.
- World.HandleEvent: `CommandSystem::executeCommand` also receives the world and may change it, but the command system is not part of this model. The model keeps only the string it is handed and assumes the world is left alone. `World.HandleEvent`, `World.HandleEvents`, `World.Frame`, `World.FrameReportsStartPosition` and `World.CommandModeFreezesPlayer` rely on that assumption.
- `MapLoader::hotReload` and `parseFile` are file I/O; the reloaded map is an input.
- The "Press E" messages in `handleEvent` only print, so they are not modelled. `keyStates` is recorded as the set of pressed keys: it is written at world.cpp:146 and never read or cleared.
- The legacy `BlockFactory` is not modelled: its `addBlock` template and `checkCollision` are declared without bodies.
- The ImGui debug overlay, the sandbox editor declarations, the inventory prototype and the stale world header are outside the core and are not modelled.
- The `std::cout` diagnostics in `addComponent`, `addBlock` and `updateServer` only print, so they are not modelled.
- 32-bit `int` overflow in the camera and window arithmetic of `renderMap` is not modelled; the model computes with unbounded integers.
- The legacy header declares only `CollisionComponent`. `LegacyBlocks` reuses all three component kinds, which is more than that header offers.
