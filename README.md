# C64 Card Battler: effect pool, combat turns and screen helpers in Dafny

This project models three parts of a card-combat game written in C for the
Commodore 64. It proves properties of each model.

- **The timed effect pool** (`src/effects.c`, module `Effects`). A fixed
  number of tagged slots (eight; see the constants below) each hold a short visual effect: a colour flash, a row shake,
  a damage number or a card highlight. Each slot has a frame countdown. A
  single shared 40-byte buffer backs up the row a shake displaces. The
  class `EffectPool` keeps the slots and the backup in arrays. Its methods
  update them in place with loops, as the C code does. Each method is proved
  against specification functions on sequences:
  - `Place` for the add requests;
  - `Ticked` and `UpdateScreen` for the per-frame update;
  - `RenderSlot` and `RenderAll` for the render pass.

  Lemmas about those functions prove several properties:
  - the live count;
  - which slot is chosen;
  - the lifetime of an effect;
  - that a shake, over its six frames, leaves the screen as it found it.
- **The combat turn state machine** (`src/combat.c`, module `Combat`). The
  class `CombatEngine` holds the state (PlayerTurn, EnemyTurn, Victory,
  Defeat) and the status line. It also holds references to the player, the
  enemy and the deck. Its methods state what each step does to all of them:
  - the guard clauses of a card play;
  - the Execute bonus;
  - the independent skill effects;
  - the transitions to Victory and Defeat;
  - the input loop of `combat_run`.
- **The screen helpers** (`src/ui.c`, module `Ui`):
  - the row-major screen offset;
  - the decimal digits of a byte, with their round trip;
  - clipped string printing, rectangle filling, single-cell writes and
    box drawing, done on screen and colour memory given as byte arrays.

The player, enemy, deck and card catalog are not part of this model. Module
`Collaborators` stands in for them. It gives each service the contract the
combat code relies on, with a minimal body that meets it. All counters are
8-bit: wherever the C code can wrap, the model wraps explicitly with
`% 256` (`AddByte`):
- `damage += 10`;
- `player.energy += 2`;
- the `uint8_t` row and column arguments of the screen helpers.

The headers that define the following constants are not part of this model,
so their values are assumptions of the model:
- `MAX_ACTIVE_EFFECTS` = 8 (`Effects.MaxActiveEffects`);
- `SCREEN_WIDTH` = 40 (`Ui.ScreenWidth`);
- `COLOR_RED` = 2 and `COLOR_LIGHTRED` = 10, the standard C64 palette
  indices (`Effects.ColorRed`, `Effects.ColorLightRed`);
- the box-drawing screen codes: top-left corner 0x70, top-right corner
  0x6E, bottom-left corner 0x6D, bottom-right corner 0x7D, horizontal line
  0x40, vertical line 0x5D (the constants at the top of module `Ui`).
No proved property depends on the glyph codes or the colour values, only
on the position each glyph or colour is written to.

The deck stand-in draws from the front of the draw pile and, when the draw
pile is empty, first turns the discard pile into the draw pile (without
shuffling it). A turn-start hand therefore holds five cards, or every card
of the deck when it holds fewer, and no operation creates or loses a card.

`combat_player_play_card` does not look at the combat state. A call after
Victory or Defeat still plays the card. Only the loop guard of `combat_run`
keeps plays out of the terminal states, and the model follows the code. An
out-of-range hand index also leaves the status line as it was: the code
returns before writing any message.

## Model

| member | source | states |
|---|---|---|
| Ui.ScreenOffset | src/ui.c:6-8 | The offset is `y*40 + x`. The 16-bit computation never wraps for byte inputs. For an on-screen column the offset decodes back to the row and the column. |
| Ui.DecimalDigits | src/ui.c:43-52 | The buffer holds one to three characters, each a decimal digit. |
| Ui.DecimalDigitsRoundTrip | src/ui.c:43-52 | The digits of every byte are 1 to 3 decimal characters. There is one character exactly below 10 and three exactly from 100. There is no leading zero unless the number is 0. The digits parse back to the number. |
| Ui.DecimalDigitsCanonical | src/ui.c:43-52 | The converse round trip: every 1-3 digit string without a leading zero whose value is below 256 is exactly the digit string of its value. |
| Ui.StrLen | src/ui.c:31 | The printed length of a NUL-terminated string: no zero before it, and a zero at it unless the text ends there. |
| Ui.PrintAtColor | src/ui.c:27-36 | Exactly `min(strlen, 40 - x)` cells from `y*40 + x` on change. Screen cells hold the text's characters and colour cells hold the colour. Every other cell of both memories is unchanged. |
| Ui.InRowsIff | src/ui.c:84-90 | A cell lies in the rectangle exactly when some row `j` covers it: `rows[j] <= k < rows[j] + w`. |
| Ui.PaintCell | src/ui.c:84-90 | After painting a rectangle, cells inside one of its rows hold the value. Cells outside all rows keep their old value. |
| Ui.FillRect | src/ui.c:81-91 | Both memories are the old ones painted over the `w`×`h` region, with rows at `(uint8)(y+j)*40 + x`: every region cell holds `ch`/`color` and nothing outside changes. |
| Ui.FillRow | src/ui.c:86-89 | The `w` cells from the row offset take `ch` in screen memory and `color` in colour memory; every other cell of both is unchanged. |
| Ui.SetChar | src/ui.c:93-95 | Screen memory changes in exactly one cell, `y*40 + x`, which becomes `ch`. |
| Ui.SetColor | src/ui.c:97-99 | Colour memory changes in exactly one cell, `y*40 + x`, which becomes `color`. |
| Ui.BoxDrawnCell | src/ui.c:57-79 | In a drawn box, the cell at `(dx, dy)` from the corner holds its glyph: a corner at the four corners, HLINE on the top and bottom edges, VLINE on the side edges, the old content inside. |
| Ui.BoxDrawnOutside | src/ui.c:57-79 | Drawing a box leaves every cell outside its bounding rectangle unchanged. |
| Ui.DrawEdge | src/ui.c:60-65 | One horizontal edge (`EdgeDrawn`): the left corner at `y*40 + x`, HLINE strictly between, the right corner at `y*40 + x + w - 1`, nothing else changed. |
| Ui.DrawSides | src/ui.c:67-71 | Screen memory becomes `SidesDrawn`: VLINE on exactly the side cells of rows `1..h-2`, nothing else changed. |
| Ui.SideCellIff | src/ui.c:68-71 | A cell is written by the side loop after `last - 1` rows exactly when, measured from the box's corner, it lies in row 1 to `last - 1` and in column 0 or `w - 1`. |
| Ui.DrawBox | src/ui.c:57-79 | For a box of at least 2×2 that fits, screen memory is the old memory with the box drawn (see BoxDrawnCell and BoxDrawnOutside). |
| Ui.BoxAssembled | src/ui.c:57-79 | The top edge, then the side edges, then the bottom edge at row `(uint8)(y+h-1)`, applied in that order, give exactly `BoxDrawn`: no later pass spoils an earlier one. |
| Effects.FirstOf | src/effects.c:35-43 | The lowest index with the given tag, or the length when there is none: that slot has the tag and no earlier slot does. |
| Effects.CountLive | src/effects.c:23-32 | The live count is at most the pool size. It is 0 exactly when every slot is free, and the pool size exactly when none is. |
| Effects.PlaceSpec | src/effects.c:143-209 | An add on a full pool changes nothing. Otherwise exactly the lowest free slot receives the effect, every other slot is unchanged, and a live effect raises the live count by exactly one. |
| Effects.Lifetime | src/effects.c:54-72 | A live effect with timer `t` keeps its tag for `t-1` frames with the timer dropping by exactly one per frame. It is freed on frame `t`. Position, size and parameters never change. |
| Effects.TickSpec | src/effects.c:50-72 | One update of a slot leaves a free slot unchanged. A live timer drops by exactly one and never below 0. The tag becomes NONE exactly when the new timer is 0, and is otherwise kept. No other field changes. |
| Effects.TickedCount | src/effects.c:49-73 | One update never raises the live count. |
| Effects.FirstExpiringShake | src/effects.c:60-69 | The lowest shake slot whose timer reaches 0 on this frame; no earlier slot is one. |
| Effects.ShakeStepSpec | src/effects.c:100-125 | On the frame `timer == param1 - 1`, the first `min(width, 40)` row cells are copied into the backup and it becomes valid; otherwise the backup is untouched. An even timer shifts the row right and keeps its first cell. An odd timer shifts it left and keeps its last cell. Nothing outside the row changes. |
| Effects.RenderAllSingle | src/effects.c:81-139 | With only one live slot, the render pass of the pool is that slot's pass. |
| Effects.SingleShakeFrame | src/effects.c:46-125 | In a pool whose only live slot is a shake with two or more frames left, one frame ticks that slot by one and applies its shake pass, and nothing else. |
| Effects.ShakenStep | src/effects.c:100-125 | A frame in the middle of a shake keeps the backup and keeps the screen equal to the original outside the row, one frame closer to the end. |
| Effects.ShakenLast | src/effects.c:60-69 | On a shake's last frame the update restores the original row from the backup, invalidates it and leaves no live slot. |
| Effects.ShakeSettles | src/effects.c:60-69 | A shake in mid-life whose backup holds the original row puts the row back when it expires, and leaves the pool empty. |
| Effects.ShakeFirstFrame | src/effects.c:102-109 | The first frame of a fresh shake copies the row into the backup, makes it valid, and disturbs nothing outside the row. |
| Effects.ShakeRestoresScreen | src/effects.c:46-125 | A shake added to an empty pool, at most 40 cells wide, goes through five frames of update-then-render. The sixth update then restores the screen exactly as it was before the first frame, invalidates the backup and frees the slot. |
| Effects.EffectPool.constructor | src/effects.c:7-11 | Zero-initialised static storage: every slot is free and the backup is invalid. |
| Effects.EffectPool.Init | src/effects.c:14-20 | Every slot is tagged NONE with its other fields kept, the live count is 0, and the backup is invalid. |
| Effects.EffectPool.ActiveCount | src/effects.c:23-32 | Returns the number of live slots. |
| Effects.EffectPool.FindFreeSlot | src/effects.c:35-43 | Returns the lowest free slot, or 0xFF exactly when every slot is live. |
| Effects.EffectPool.Add | src/effects.c:144-145 | The slots become `Place(old slots, e)`: the first free slot is filled, and the effect is dropped when there is none. |
| Effects.EffectPool.AddFlash | src/effects.c:143-155 | Places a Flash with timer 6, param1 the colour, param2 0. |
| Effects.EffectPool.AddShake | src/effects.c:158-170 | Places a Shake with timer 6, param1 6, param2 0. |
| Effects.EffectPool.AddDamage | src/effects.c:173-194 | Places a damage number with timer 30, param1 red if `to_enemy` is non-zero and light red otherwise, param2 the value, and size 0. |
| Effects.EffectPool.AddCardHighlight | src/effects.c:197-209 | Places a Highlight with timer 4 and param1 the card index, at position 0 with size 0. |
| Effects.EffectPool.GetHighlightedCard | src/effects.c:212-220 | Returns param1 of the lowest Highlight slot, or 0xFF when there is none. |
| Effects.EffectPool.Update | src/effects.c:46-74 | The slots become `Ticked(old slots)`. The lowest expiring shake restores its row from a valid backup and invalidates it. Nothing else changes on screen. |
| Effects.EffectPool.UpdateSlot | src/effects.c:50-72 | The slot becomes `Tick` of itself. An expiring shake with a valid backup restores its row and invalidates the backup; otherwise screen and flag are unchanged. |
| Effects.EffectPool.RestoreRow | src/effects.c:64-67 | The `width` cells from the shake's offset are copied back from the backup. |
| Effects.EffectPool.Render | src/effects.c:77-140 | Screen, colour memory, backup and flag become the render passes of all slots in slot order (`RenderAll`). |
| Effects.EffectPool.RenderFlash | src/effects.c:87-98 | On an even timer, colour memory is painted with param1 over the `width`×`height` region. On an odd timer nothing is written. |
| Effects.EffectPool.RenderShake | src/effects.c:100-125 | Screen, backup and flag become `ShakeStep` of the old ones. |
| Effects.EffectPool.SnapshotRow | src/effects.c:102-109 | The backup becomes `Snapshot`: its first `min(width, 40)` cells hold the row, the rest are unchanged, and the flag is set. |
| Effects.EffectPool.ShiftRowRight | src/effects.c:112-117 | Row cells `1..width-1` take the old value of their left neighbour; the first cell and all others are unchanged. |
| Effects.EffectPool.ShiftRowLeft | src/effects.c:118-124 | Row cells `0..width-2` take the old value of their right neighbour; the last cell and all others are unchanged. |
| Collaborators.Damaged | src/combat.c:81 | Damage never raises hp. Hp reaches 0 exactly when the damage is at least the hp, and otherwise drops by exactly the damage. |
| Collaborators.AddByte | src/combat.c:77 | An 8-bit addition: without overflow the result is the plain sum, and a sum that passes 255 once wraps to the sum less 256. |
| Collaborators.Player.CanPlayCard | src/combat.c:61 | A card is affordable exactly when its cost is at most the energy. |
| Collaborators.Player.SpendEnergy | src/combat.c:67 | Energy drops by the cost. |
| Collaborators.Player.GainBlock | src/combat.c:88 | Block becomes `AddByte(block, amount)`: it grows by the amount, wrapping in 8 bits. |
| Collaborators.Enemy.Init | src/combat.c:16 | The enemy is the requested one, at full hp. |
| Collaborators.Enemy.TakeDamage | src/combat.c:81 | Hp becomes `Damaged(hp, amount)`, clamped at 0. |
| Collaborators.Enemy.IsDead | src/combat.c:114 | Dead exactly when hp is 0. |
| Collaborators.Enemy.ExecuteAction | src/combat.c:125 | The enemy's action may lower the player's hp and block and may change its own intent. The frame leaves every other player and enemy field unchanged. |
| Collaborators.Deck.Init | src/combat.c:19 | Empty hand and discard pile; the draw pile holds exactly the starting cards (as a multiset). |
| Collaborators.Deck.DrawCard | src/combat.c:94-95 | One card joins the end of the hand exactly when the draw and discard piles are not both empty. The hand before it is kept, and no card is created or lost. With a non-empty draw pile the card is the top of the draw pile and the discard pile is untouched; otherwise the discard pile has become the draw pile. |
| Collaborators.Deck.DrawToHandSize | src/combat.c:26 | A hand below `n` grows to `n`, or by every card left in the draw and discard piles when there are fewer. A hand at or above `n` is unchanged. The old hand is kept in front, no card is created or lost, and the discard pile is untouched when the draw pile alone covers the draw. |
| Collaborators.Deck.DiscardHand | src/combat.c:39 | The whole hand moves onto the discard pile; no card is created or lost. |
| Collaborators.Deck.PlayCard | src/combat.c:111 | Exactly hand entry `i` moves to the top of the discard pile and the later entries move down; no card is created or lost. |
| Combat.ExecuteBonusIff | src/combat.c:71-81 | Without 8-bit overflow, the damage is `attack + 10` iff the card has Execute and the enemy hp is at most `max_hp / 2`. Otherwise the damage is `attack`. |
| Combat.ExecuteBonusWraps | src/combat.c:77 | With attack 246 or more, the bonus wraps in `uint8_t` and the Execute card deals `attack + 10 - 256`. |
| Combat.SkillLogIsLast | src/combat.c:86-104 | The status a skill card leaves is the message of the last of block, draw and energy that applies. It is the previous status when none applies. |
| Combat.ExecuteScenario | src/combat.c:71-81 | Against 20/20 hp: a plain 6-damage attack leaves 14. An Execute 4 attack then leaves 10 with no bonus. A second Execute 4 attack gets the bonus at 10 and deals 14, leaving 0. |
| Combat.CombatEngine.constructor | src/combat.c:10-11 | Binds the player, enemy and deck. The zeroed static state is taken to be PlayerTurn, the first enumerator, and the status starts empty. |
| Combat.CombatEngine.Init | src/combat.c:14-30 | Ends in PlayerTurn with full energy, no block, the requested enemy at full hp, an empty discard pile, a hand of `min(5, deck size)` cards, the deck holding exactly the starting cards, and the "Combat begins" status. The player's hp and maximums are outside the frame. |
| Combat.CombatEngine.StartTurn | src/combat.c:33-45 | Ends in PlayerTurn with full energy and no block. The hand holds `min(5, cards in the deck)` cards and no card is created or lost. When the draw pile alone covers five cards, the discard pile is the old one with the old hand on top. |
| Combat.CombatEngine.PlayCard | src/combat.c:48-117 | An index past the hand changes nothing. An unaffordable card changes only the status. Otherwise all of the following hold: energy drops by exactly the cost (then grows by 2, wrapping, for an Energy skill); attack damage is `AttackDamage` at the enemy's current hp; block is added only when the card's block is positive; the status is that of the last applicable effect; a Draw skill adds exactly `min(2, cards left)` cards to the hand and the played entry leaves it, keeping the order of the rest; the played card is on top of the discard pile, which is otherwise unchanged when the draw pile covers the draws; a card without Draw leaves the draw pile unchanged; no card is created or lost; the state becomes Victory iff the enemy's hp is 0 and is otherwise unchanged. Enemy intent, player hp and maximums are outside the frame. |
| Combat.CombatEngine.PlayAffordable | src/combat.c:66-116 | For an affordable card at index `i`: the same effects as a successful PlayCard, stated against the state before the payment. |
| Combat.CombatEngine.DiscardPlayed | src/combat.c:111 | Given the deck as the card's resolution left it, relative to the deck before payment (hand `hand0`, draw pile, discard pile), the played entry `i` of `hand0` leaves the hand and goes on top of the discard pile. The rest of `hand0` stays at the front in order, the hand holds `|hand0| - 1 + min(drawn, cards left)` cards, no card is created or lost, and the piles are as before plus the card when no reshuffle happened. |
| Combat.CombatEngine.PayAndResolve | src/combat.c:66-108 | Energy drops by the cost, then the card's effects apply as in Resolve. |
| Combat.CombatEngine.Resolve | src/combat.c:70-108 | An attack card resolves as ResolveAttack and a skill card as ResolveSkill. Any other type changes nothing. |
| Combat.CombatEngine.ResolveAttack | src/combat.c:71-84 | Enemy hp becomes `Damaged(hp, AttackDamage(card, hp, max_hp))` and the status is "You attack". |
| Combat.CombatEngine.ResolveSkill | src/combat.c:86-104 | Block grows by the card's block (8-bit) only when it is positive, and energy grows by 2 (8-bit) only for an Energy card. A Draw card adds exactly `min(2, cards left)` cards to the end of the hand and leaves the discard pile alone when the draw pile holds two; any other card leaves the deck unchanged. No card is created or lost, and the status is `SkillLog`. |
| Combat.CombatEngine.DrawTwo | src/combat.c:94-95 | Exactly `min(2, cards left)` cards join the end of the hand, no card is created or lost, and the discard pile is untouched when the draw pile holds two. |
| Combat.RemoveKeepsPrefix | src/combat.c:94-111 | Removing entry `i` of a hand that has since grown at its end gives the old hand, less entry `i`, at the front. |
| Combat.CombatEngine.EndTurn | src/combat.c:120-135 | Player hp never rises and EnemyTurn is never the state on return. At hp 0 the state is Defeat, the energy and the deck are untouched, and block never rises. Otherwise a new turn starts, as in StartTurn. The player's maximums are outside the frame. |
| Combat.CombatEngine.GetState | src/combat.c:138-140 | Returns the current state. |
| Combat.CombatEngine.Run | src/combat.c:220-236 | Keys are read only while it is the player's turn: the ghost trace of the state at every read key is PlayerTurn, so nothing is read after Victory or Defeat, and a terminal or enemy state on entry is left untouched. The loop stops after the first end-turn key. Stopping before the keys run out means either that key was read or the enemy died. Victory comes only from a play key, the last key read. |

## Left out

- Screen and colour memory are arrays of finite length. Every operation requires the cells it writes to lie inside them, whereas the C code writes wherever the address points.
- The DAMAGE_NUM branch of `effects_render` draws nothing in the model. It calls `ui_print_number_at_color`, which is not part of this model.
- Effects.EffectPool.Render: requires every shake to be at least one cell wide. For width 0 the `uint8_t` counter `width - 1` wraps to 255 and the right shift writes 255 cells.
- Effects.EffectPool.Update: requires the expiring shake to be at most 40 cells wide. The restore loop is bounded by the width, not by the 40-byte backup, and reads past it for wider shakes.
- Effects.ShakeRestoresScreen: covers a single shake in an otherwise empty pool. Two shakes share the one backup buffer and can overwrite each other's snapshot.
- Ui.DrawBox: covers only boxes of at least 2×2 cells that fit within their rows and above row 256. Narrower boxes overwrite their own corners, and a zero width or height wraps the `uint8_t` coordinates.
- `ui_print_number` is modelled only as its digit conversion. The call to `ui_print_at` that shows the digits is conio output.
- `ui_init`, `ui_clear_screen`, `ui_print_at`, `ui_wait_key` and `ui_get_key` are thin wrappers over conio output and keyboard polling.
- `combat_render` is screen layout only.
- Combat.CombatEngine.Run: keys are a finite input sequence, and the loop stops when they run out. The C loop polls the keyboard until a key arrives, and `combat_render` between plays is screen output.
- The status line `combat_log` is modelled by message values, not string contents. The damage number is not appended to "You attack for" in the code either.
- Player, enemy, deck and card catalog internals are stand-ins that meet the contracts above:
  - no shuffling, so the reshuffle of the discard pile into an empty draw pile keeps its order;
  - no enemy stat table or intent selection;
  - the card catalog lookup is folded in, so the hand holds card records rather than ids.
- The deck's storage (`deck.c`) is not part of this model: the hand, draw pile and discard pile are unbounded sequences, so any capacity limit of the C arrays is not captured.
- Collaborators.Player.GainBlock: the body of `player_gain_block` is not part of this model. Block is taken to grow as a plain `uint8_t` addition.
