# NanoCards match engine in Dafny

This project models the rules of NanoCards, a two-player card game in which
the player duels a scripted opponent ("IA"). Each side has:

- a deck of card ids (the top is the end of the array);
- a hand of at most 7 card instances;
- a field of at most 5 monsters;
- four goal slots (Magie or Piege cards), nulled in place when destroyed.

A player wins by destroying all four goals of the other side.

The model covers:

- the match engine of `gameLogic.js`: draw, play, select, combat, goal-card effects, the win check and the turn controller;
- the opponent policy of `aiLogic.js`;
- the card factory of `cardManager.js`;
- the Fisher-Yates shuffle and the PROTECTOR test of `utils.js`;
- the deck editor of `deckBuilder.js`.

## Modules

- **Cards** (`cards.dfy`): the catalog entry `CardDef` and the card instance `Card`. The instance `inst-N` is the number N. The module also holds the zone operations `find`/`filter`/in-place update.
- **Utils** (`utils.js`): each `Math.random()` is a roll in [0, 1), passed in as a parameter. `RandomIndex` is `Math.floor(roll * n)`. `Shuffled` is the Fisher-Yates loop as a function. `ShuffleDeck` is the in-place loop on an `array`. `HasProtector` is `hasProtector`, null and non-array inputs included.
- **CardManager** (`cardManager.js`): the class `Manager` holds the loaded catalog and the `instanceIdCounter`. Its methods are `createCardInstance`, `initializeDeck` and `initializeGoalCards`. The two initializers return the new contents of the caller's array.
- **Ai** (`aiLogic.js`): the opponent's decisions as pure functions:
  - whether to draw;
  - which card to play;
  - which monsters attack;
  - what each attacker targets.
- **Rules** (`rules.dfy`): the match state as a value `Board`. Each function gives the board that one entry point of `gameLogic.js` leaves behind. The lemmas state the rules those functions obey.
- **Engine** (`engine.dfy`): the module-level `let` variables of `gameLogic.js` as the fields of a class `Match`. Each entry point is a method that updates those fields in place, and each method is proved to leave exactly the board the matching function of Rules describes (`State() == ...Result(old(State()), ...)`).
  - A field is a `Zone` object, because the engine both pushes onto a field array and reassigns the variable to a `filter`ed copy. This way the opponent's attack loop can hold a stale reference to the player's field, as the source does.
  - Awaited delays and animations are sequential steps.
- **DeckBuilder** (`deckBuilder.js`): the class `Builder` holds the collection (a map plus its keys in insertion order), the custom deck, and the editing operations. `autoFillDeck` is proved to extend the greedy deck (protectors by descending atk, then the other monsters) and to respect every limit.

Behaviour of the source that the model keeps on purpose:

- The protector rule only turns away Monstre targets. A goal card can be attacked past a protector (`GoalTargetIgnoresProtector`).
- A drawn id that the catalog does not know is lost: the deck loses its top and the hand gains nothing.
- RETURN_ATTACKER_TO_HAND with a full hand removes the attacker from the field and drops it.
- The opponent's attack loop receives a copy of `gameIsOver`, which never changes during the loop. Correctness rests on `executeCombat`'s own guard. `AiPerformAttacks` proves that once an attack ends the game, the later attacks change nothing.
- `checkWinCondition` checks the opponent's goals first, so a board where both sides have no goals counts as a win for the player.
- `executeOpponentTurnLogic` has four re-checks that cannot fire in a sequential run: the `gameIsOver` re-checks after each delay, and the copied-flag test after the attacks. These are left out.

## Model

| member | source | states |
|---|---|---|
| Cards.Instantiate | cardManager.js:50-57 | a fresh instance copies every definition field, carries the given instance number, has not attacked, is not revealed and may attack |
| Cards.FindIndex | gameLogic.js:137 | `findIndex` by instance id: none iff no card has that id, otherwise the first position holding it |
| Cards.RemoveInstance | gameLogic.js:213-214 | `filter` by instance id keeps exactly the cards with another id, and is the identity when the id is absent |
| Cards.RemoveInstanceAppend | gameLogic.js:213-214 | the filter keeps the order of the cards it keeps: filtering a concatenation filters each part in turn |
| Cards.RemoveInstanceUnique | gameLogic.js:213-214 | when the id occurs once, at position k, the filter removes exactly that card and keeps the others in field order |
| Cards.UpdateInstance | gameLogic.js:287-289 | an in-place update of the instance found by `find` changes only the first card with that id and keeps every other card, later cards with the same id included |
| Utils.RandomIndex | utils.js:9 | `Math.floor(Math.random() * n)` lies in [0, n) and is the floor of roll·n |
| Utils.RandomIndexCovers | utils.js:9 | every index below n is produced by some roll in [0, 1) |
| Utils.Swap | utils.js:10 | the destructuring swap exchanges the two positions and keeps all the others |
| Utils.SwapPermutation | utils.js:10 | a swap keeps the multiset of the array |
| Utils.ShufflePermutation | utils.js:7-12 | the shuffle keeps the length and the multiset of its input |
| Utils.ShuffleKeepsAbove | utils.js:8-10 | the remaining iterations never touch a position above the current one |
| Utils.ShuffleFinality | utils.js:8-10 | the swap index of the iteration at i lies in [0, i], and once that iteration has run every position at or above i holds its final value |
| Utils.ShuffleShort | utils.js:8 | arrays of length 0 or 1 are left as they are |
| Utils.ShuffleDeck | utils.js:7-12 | the in-place loop leaves the array equal to the shuffle function applied to its old contents |
| Utils.AnyProtector | utils.js:110 | true iff some non-null entry is a Monstre with the PROTECTOR ability |
| Utils.HasProtector | utils.js:108-111 | false for null or non-array input; otherwise true iff some non-null entry is a PROTECTOR Monstre |
| Utils.FieldHasProtector | utils.js:108-111 | on a field of cards, true iff some card is a PROTECTOR Monstre, and false on an empty field |
| CardManager.Find | cardManager.js:44 | `allCards.find` by id: none iff no catalog entry has the id, otherwise an entry with that id |
| CardManager.FindUnique | cardManager.js:44 | when catalog ids are distinct, looking up the id of an entry yields that entry |
| CardManager.Monsters | cardManager.js:71 | exactly the Monstre definitions of the catalog |
| CardManager.SpellTraps | cardManager.js:99 | exactly the Magie and Piege definitions of the catalog |
| CardManager.GoalInstanceIsSpellTrap | cardManager.js:99-115 | when catalog ids are distinct, every goal instance built by the initializer is a Magie or Piege card |
| CardManager.Manager.constructor | cardManager.js:4-5 | the factory starts with the loaded catalog and the counter at 0 |
| CardManager.Manager.CreateCardInstance | cardManager.js:43-58 | an unknown id yields null and leaves the counter alone; otherwise the counter rises by exactly 1 and the new instance of that definition carries the new counter value as its id |
| CardManager.Manager.InitializeDeck | cardManager.js:65-85 | no loaded cards: the array is untouched; no Monstre: it is emptied; otherwise it has exactly `deckSize` entries whose multiset is the cyclic fill of the monster ids, each of them a Monstre of the catalog |
| CardManager.Manager.ShuffledSpellTraps | cardManager.js:107-108 | the shuffled copy is a permutation of the Magie/Piege definitions |
| CardManager.Manager.DealGoals | cardManager.js:110-122 | the four goal slots hold instances of Magie/Piege definitions with the next four instance ids |
| CardManager.Manager.InitializeGoalCards | cardManager.js:93-124 | no loaded cards: untouched; otherwise exactly 4 entries: all null when there is no Magie/Piege, else four instances with consecutive new ids (so pairwise distinct) built from Magie/Piege definitions |
| Ai.DrawCalls | aiLogic.js:13-20 | `drawCard('IA')` is called at most once, and exactly once iff the deck is non-empty and the hand holds fewer than 7 cards |
| Ai.FirstProtectorIndex | aiLogic.js:35-37 | the first PROTECTOR Monstre of the hand, none iff there is none |
| Ai.BestMonsterIndex | aiLogic.js:42-45 | the head of the monsters stably sorted by descending atk: a Monstre of maximal atk, with no earlier Monstre of equal atk |
| Ai.ChooseCardToPlay | aiLogic.js:29-54 | no card with an empty hand or a full field; the choice is always a hand Monstre; with no protector on the field, the first protector of the hand comes first; otherwise the first monster of maximal atk |
| Ai.Attackers | aiLogic.js:66-68 | the attacker list holds exactly the field monsters that have not attacked and are not frozen; an empty field gives none and a one-card field gives that card iff it may attack |
| Ai.AttackersAppend | aiLogic.js:66-68 | the list keeps field order: the attackers of a concatenation are those of the first part followed by those of the second |
| Ai.FirstMinDefIndex | aiLogic.js:78-83 | the head of the candidates stably sorted by ascending def: a candidate of minimal def, with no earlier candidate of equal def |
| Ai.UnrevealedGoals | aiLogic.js:87 | exactly the non-null goal cards not yet revealed |
| Ai.ChooseTarget | aiLogic.js:73-98 | the target is the player's protector of least def (first on ties) if there is one; else an unrevealed goal if there is one; else the player's monster of least def; else nothing |
| Ai.TargetRespectsProtector | aiLogic.js:77-84 | when the player has a protector, the opponent always targets a protector, so the engine's protector rule never turns it away |
| Rules.DrawResult | gameLogic.js:101-124 | a no-op when the game is over, the deck is empty or the hand holds 7 cards; otherwise the deck loses exactly its top, and the hand keeps its cards and gains at most one. It gains one iff the catalog knows the id, and that instance carries the next counter value and the drawn id. Nothing else changes |
| Rules.PlayResult | gameLogic.js:131-152 | a hand Monstre of the acting side moves to the end of its field when the game is on, it is that side's turn (for the player) and the field has fewer than 5 cards; otherwise nothing changes; the hand+field count is preserved and the field never exceeds 5 |
| Rules.EffectOf | gameLogic.js:255-263 | the effect dispatch falls back to "unrecognized" exactly for keys outside the eight known ones |
| Rules.MonsterPositions | gameLogic.js:296-297 | positions of Monstre cards, non-empty whenever the field holds a Monstre |
| Rules.Summonable | gameLogic.js:339 | exactly the hand Monstre cards with atk at most 10 |
| Rules.ReduceAtk | gameLogic.js:286-294 | the attacker's instance, if on the field, has its atk lowered to max(0, atk−5); every other card is unchanged |
| Rules.Freeze | gameLogic.js:331-337 | the attacker's instance, if on the field, can no longer attack next turn; every other card is unchanged |
| Rules.Buff | gameLogic.js:295-304 | without a Monstre nothing changes; otherwise exactly one Monstre of the goal owner's field gains 5 atk |
| Rules.DestroyAttackerResult | gameLogic.js:264-274 | the attacker no longer appears on its owner's field; every other zone is unchanged |
| Rules.DiscardResult | gameLogic.js:275-281 | the attacking side loses exactly one hand card when its hand is non-empty, else nothing changes |
| Rules.ReturnResult | gameLogic.js:305-330 | an attacker still on the field always leaves it, and joins its hand only when the hand holds fewer than 7 cards; an absent attacker changes nothing |
| Rules.SummonResult | gameLogic.js:338-351 | when the goal owner has a hand Monstre of atk at most 10 and a field with room, one such monster leaves the hand and is appended to the field; otherwise nothing changes; the attacker's side is unchanged |
| Rules.EffectResult | gameLogic.js:251-354 | no effect touches a goal slot, the turn, the selection or the game-over flag; only the owner's draw creates an instance; an unknown key changes nothing |
| Rules.Remaining | gameLogic.js:455-456 | the count of non-null goal slots, zero iff every slot is null |
| Rules.WinCheck | gameLogic.js:452-464 | the player wins iff the opponent has no goal left, and loses iff the opponent still has one and the player has none |
| Rules.GoalSlot | gameLogic.js:230-234 | the first slot holding the target instance, none iff no slot holds it |
| Rules.Reveal | gameLogic.js:221 | revealing the target changes only its slot and keeps which slot holds the target |
| Rules.GoalSlotSameShape | gameLogic.js:221-234 | slot arrays with the same nulls and instance ids locate the target in the same slot |
| Rules.ClearSlot | gameLogic.js:228-235 | the slot holding the target becomes null, the array keeps its length, every other slot is unchanged |
| Rules.Marked | gameLogic.js:203 | marking the attacker changes only the attacker's own field |
| Rules.StrikeMonster | gameLogic.js:207-218 | a monster strike touches only the defender's field |
| Rules.StrikeGoal | gameLogic.js:219-236 | a goal strike leaves the defender's goals revealed-then-cleared at the target slot and the attacker's goals unchanged |
| Rules.CombatResult | gameLogic.js:173-249 | combat keeps the turn and the attacker's goals and only clears the player's selection; once the game is over it changes nothing but the selection |
| Rules.Resolve | gameLogic.js:203-245 | a resolved attack keeps the turn and the game-over flag and the attacker's goals, and clears the player's selection |
| Rules.CombatRefusedChangesNothing | gameLogic.js:174-178 | once the game is over, or when the attacker already attacked or is frozen, combat changes no zone and no flag beyond clearing the player's selection |
| Rules.ProtectorRuleAborts | gameLogic.js:183-192 | a defending protector turns away an attack on a non-protector monster before the attacker is marked: neither side changes |
| Rules.GoalTargetIgnoresProtector | gameLogic.js:181-184 | the protector rule never turns away a Magie or Piege target |
| Rules.MonsterCombat | gameLogic.js:203-218 | the attacker is marked, the defender leaves its field iff atk > def, no other field card changes, and hands and goals are untouched |
| Rules.InstanceIds | gameLogic.js:213-214 | the ids present in a zone are exactly the ids of its cards |
| Rules.GoalTargetSlot | gameLogic.js:221-235 | attacking a goal nulls exactly the slot that held it; the slot array keeps its length and every other slot; the attacker's goals are untouched |
| Rules.CombatWinCheck | gameLogic.js:248 | a finished game stays finished, and after a resolved combat the game is over iff one side has no goal left |
| Engine.UntapAll | gameLogic.js:440-446 | every card is untapped: has not attacked and may attack; nothing else on a card changes |
| Engine.AiDrawIsDrawGuard | aiLogic.js:14-15 | while the game runs, `aiDrawCard` calls `drawCard('IA')` exactly when that draw changes the board |
| Engine.StartTurnProperties | gameLogic.js:429-449 | starting the player's turn adds exactly 1 to the turn number, gives the turn to the player, untaps every player field card and changes neither the opponent's side nor the player's goals |
| Engine.Match.constructor | gameLogic.js:39-75 | a new match: player's turn, turn 1, no selection, empty fields, at most 5 cards per hand, a custom deck of 20+ cards used (minus five draws), otherwise the default deck of 20, and four goal slots per side |
| Engine.Match.ShuffledCopy | gameLogic.js:47-48 | the custom deck is copied and shuffled: same length, same multiset |
| Engine.Match.DealOpeningHands | gameLogic.js:62-65 | five alternating draws, the player first: each deck of at least five ids loses exactly five, each hand holds at most five cards |
| Engine.Match.DrawCard | gameLogic.js:101-124 | the in-place draw leaves the board `Rules.DrawResult` gives |
| Engine.Match.PlayerDrawCard | gameLogic.js:125-129 | the explicit draw happens only during the player's turn |
| Engine.Match.PlayCardFromHand | gameLogic.js:131-152 | the in-place play leaves the board `Rules.PlayResult` gives |
| Engine.Match.SelectPlayerCardForAttack | gameLogic.js:154-170 | the player's field card is selected only during a live player turn, when it is on the field, has not attacked and is not frozen; otherwise the selection is kept |
| Engine.Match.CheckWinCondition | gameLogic.js:452-464 | the game is over afterwards iff it was already over or one side has no goal left; the result is the new flag |
| Engine.Match.DestroyAttackerEffect | gameLogic.js:264-274 | leaves the board `Rules.DestroyAttackerResult` gives, the owner's field becoming a new array |
| Engine.Match.DiscardEffect | gameLogic.js:275-281 | leaves the board `Rules.DiscardResult` gives |
| Engine.Match.WeakenAttackerEffect | gameLogic.js:286-337 | updates the attacker's instance in place as `Rules.ReduceAtk` or `Rules.Freeze` gives |
| Engine.Match.BuffEffect | gameLogic.js:295-304 | updates the goal owner's field in place as `Rules.Buff` gives |
| Engine.Match.ReturnEffect | gameLogic.js:305-330 | leaves the board `Rules.ReturnResult` gives |
| Engine.Match.SummonEffect | gameLogic.js:338-351 | leaves the board `Rules.SummonResult` gives, pushing onto the goal owner's current field |
| Engine.Match.ApplyGoalCardEffect | gameLogic.js:251-354 | the dispatch leaves the board `Rules.EffectResult` gives |
| Engine.Match.FieldCardEffect | gameLogic.js:286-337 | the REDUCE, BUFF and FREEZE cases, which update one field card in place, leave the board `Rules.EffectResult` gives |
| Engine.Match.ZoneEffect | gameLogic.js:264-354 | the cases that move cards between zones, and the no-op default, leave the board `Rules.EffectResult` gives |
| Engine.Match.MarkAttacker | gameLogic.js:203 | leaves the board `Rules.Marked` gives |
| Engine.Match.StrikeMonsterTarget | gameLogic.js:207-218 | leaves the board `Rules.StrikeMonster` gives |
| Engine.Match.StrikeGoalTarget | gameLogic.js:219-236 | leaves the board `Rules.StrikeGoal` gives |
| Engine.Match.ResolveCombat | gameLogic.js:203-245 | leaves the board `Rules.Resolve` gives |
| Engine.Match.ClearSelectionOf | gameLogic.js:187-190 | the player's selection is cleared when the player attacked; nothing else changes |
| Engine.Match.ExecuteCombat | gameLogic.js:173-249 | the whole combat, guards and win check included, leaves the board `Rules.CombatResult` gives |
| Engine.Match.PlayerTargetCard | gameLogic.js:29-33 | with no selection nothing changes; otherwise the selected card attacks the target as `Rules.CombatResult` gives |
| Engine.Match.UntapField | gameLogic.js:440-446 | the `forEach` untap leaves the field equal to `UntapAll` of its old cards |
| Engine.Match.StartPlayerTurn | gameLogic.js:429-449 | leaves the board `StartTurnResult` gives |
| Engine.Match.AiPerformAttacks | aiLogic.js:63-113 | no attack when the copied flag says the game is over; a finished game stays finished and, once it ends, later attacks change nothing; the turn, selection and opponent goals are untouched |
| Engine.Match.OpponentMainPhase | gameLogic.js:376-397 | the opponent's untap, draw and play add at most one card to its field and touch neither the player's field nor any goal, turn or flag |
| Engine.Match.ExecuteOpponentTurn | gameLogic.js:369-427 | nothing changes when the game is already over; if the game goes on, the turn returns to the player with the turn number up by exactly one and every player field card untapped; the selection and the opponent's goals are untouched |
| Engine.Match.EndPlayerTurn | gameLogic.js:357-367 | only during a live player turn: the selection is cleared, and the turn comes back to the player one turn later with an untapped field unless the opponent's turn ended the game |
| DeckBuilder.Collected | deckBuilder.js:29-33 | adding to the collection adds the id to its keys and keeps every other key |
| DeckBuilder.CollectedCounts | deckBuilder.js:31 | the count of the id rises by `quantity`; every other count is unchanged |
| DeckBuilder.AddCard | deckBuilder.js:178-199 | the deck is unchanged at 40 cards, at 3 copies or at as many copies as owned; otherwise exactly the id is appended |
| DeckBuilder.AddCardKeepsDeckOk | deckBuilder.js:184-197 | adding keeps "at most 40 cards, per id at most 3 copies and at most the owned count" |
| DeckBuilder.FirstIndex | deckBuilder.js:202 | the first position of the id, none iff it is absent |
| DeckBuilder.RemoveFirst | deckBuilder.js:201-207 | only the first occurrence of the id is spliced out; an absent id leaves the deck unchanged |
| DeckBuilder.RemoveFirstCounts | deckBuilder.js:202-204 | removing takes away exactly one copy of a present id |
| DeckBuilder.RemoveKeepsDeckOk | deckBuilder.js:201-207 | removing keeps the deck limits |
| DeckBuilder.EntryFor | deckBuilder.js:219-229 | an entry is made exactly for an owned id (count > 0) of a Monstre of the catalog, with that count, its PROTECTOR flag and its atk |
| DeckBuilder.Available | deckBuilder.js:218-231 | every available entry comes from a collection key and is the entry made for it, and every key with an entry contributes it |
| DeckBuilder.AvailableAppend | deckBuilder.js:218-231 | the entries follow the key order: the entries of two key lists in a row are those of the first followed by those of the second |
| DeckBuilder.AvailableDistinct | deckBuilder.js:218-231 | with each key listed once, the available entries have distinct ids |
| DeckBuilder.Filter | deckBuilder.js:239 | exactly the entries with the requested protector flag; distinct ids stay distinct |
| DeckBuilder.Insert | deckBuilder.js:240 | one step of the stable sort adds exactly the inserted entry to the multiset |
| DeckBuilder.InsertSorted | deckBuilder.js:240 | inserting into a list sorted by descending atk keeps it sorted |
| DeckBuilder.SortDescSorted | deckBuilder.js:240 | the sort by descending atk is ordered and a permutation of its input |
| DeckBuilder.SortDescDistinct | deckBuilder.js:256 | distinct ids stay distinct through the sort |
| DeckBuilder.InsertDistinct | deckBuilder.js:240 | inserting an entry with a new id keeps ids distinct |
| DeckBuilder.SortDescMembers | deckBuilder.js:240 | the sort neither adds nor drops an entry, nor changes the set of ids |
| DeckBuilder.Taken | deckBuilder.js:244-249 | the inner loop pushes nothing, or at most the requested copies and no more than the room left below 20 |
| DeckBuilder.Step | deckBuilder.js:243-250 | one entry's inner loop appends only copies of that id after the existing deck |
| DeckBuilder.GreedyExtends | deckBuilder.js:242-270 | a greedy stage only appends, and only ids of its entries |
| DeckBuilder.AddCopiesWithin | deckBuilder.js:243-249 | pushing the copies of one entry keeps at most 20 cards and per id at most 3 copies and at most the owned count |
| DeckBuilder.GreedyWithin | deckBuilder.js:242-270 | a greedy stage keeps those limits |
| DeckBuilder.StagesDisjoint | deckBuilder.js:239-255 | the other-monsters stage only sees ids the protector stage never added |
| DeckBuilder.GreedyDeckWithin | deckBuilder.js:239-270 | the deck after both greedy stages has at most 20 cards, per id at most 3 copies and at most the owned count |
| DeckBuilder.GreedyDeckOrder | deckBuilder.js:239-270 | the greedy deck is the protector stage (protector ids) followed only by non-protector ids |
| DeckBuilder.AtkOf | deckBuilder.js:229 | with distinct ids, the atk looked up for an id is the atk of its entry |
| DeckBuilder.GreedyAtkOrder | deckBuilder.js:242-252 | a greedy stage over entries sorted by descending atk pushes ids in descending atk order |
| DeckBuilder.StageEntries | deckBuilder.js:239-240 | the entries of a stage are sorted by descending atk and all come from the available list |
| DeckBuilder.ProtectorStageAtkOrder | deckBuilder.js:239-252 | the protector stage alone lists its ids by descending atk |
| DeckBuilder.OtherStageAtkOrder | deckBuilder.js:254-270 | what the other-monsters stage appends is in descending atk |
| DeckBuilder.GreedyDeckAtkOrder | deckBuilder.js:239-270 | the protector stage lists its ids by descending atk, and so does the other-monsters stage after it |
| DeckBuilder.PushWithin | deckBuilder.js:280-283 | one push of the random top-up keeps the limits |
| DeckBuilder.AvailableOwned | deckBuilder.js:218-231 | a deck within the available list holds only collection ids of catalog Monstre cards, each at most min(owned, 3) times |
| DeckBuilder.Builder.constructor | deckBuilder.js:8-9 | the editor starts with an empty collection and an empty deck |
| DeckBuilder.Builder.AddToUserCollection | deckBuilder.js:29-33 | the collection becomes `Collected` of the old one; a new id becomes the last key |
| DeckBuilder.Builder.AddCardToDeck | deckBuilder.js:178-199 | the deck becomes `AddCard` of the old deck with the owned count |
| DeckBuilder.Builder.RemoveCardFromDeck | deckBuilder.js:201-207 | the deck becomes `RemoveFirst` of the old deck |
| DeckBuilder.Builder.SaveUserDeck | deckBuilder.js:40-52 | the deck is accepted iff it holds between 20 and 40 cards |
| DeckBuilder.Builder.AvailableCards | deckBuilder.js:216-231 | the loop builds exactly `Available` over the keys in order, with distinct ids |
| DeckBuilder.Builder.PushCopies | deckBuilder.js:244-250 | the inner push loop appends exactly the copies `Step` allows, stopping at 20 cards |
| DeckBuilder.Builder.FillStage | deckBuilder.js:242-252 | one greedy stage of nested loops leaves exactly the `Greedy` deck |
| DeckBuilder.Builder.GreedyFill | deckBuilder.js:239-271 | both greedy stages leave exactly the greedy deck |
| DeckBuilder.Builder.TopUp | deckBuilder.js:273-291 | the top-up only appends, and keeps at most 20 cards and per id at most 3 copies and at most the owned count |
| DeckBuilder.Builder.AutoFillDeck | deckBuilder.js:211-294 | the result starts with the greedy deck and equals it when that has 20 cards; no available monster gives an empty deck; at most 20 ids, only owned Monstre ids, each at most min(owned, 3) times |

## Left out

- Loading the catalog (`loadCardData`, a network fetch of cards.json): the catalog is a given sequence of definitions.
- Rendering, messages, animations, screen shakes and every `ui.*` and `console` call: they only display.
- Awaited delays: they are pacing only. Each awaited step runs to completion before the next one.
- A quit during a delay: it could set `gameIsOver` between the steps of the opponent's turn, so the re-checks that follow those delays are left out (gameLogic.js:386, 392, 401, 416-418).
- `Math.random()`: each call is a roll in [0, 1) passed in by the caller. The properties hold for every valid roll.
- The `inst-N` strings: an instance id is the number N. Distinct numbers give distinct strings.
- Persistence in the deck editor (`localStorage`, JSON; `loadUserCollection`, `saveUserCollection`, `loadUserDeck`, `getUserDeck`): the collection and the deck are in-memory values, and the match gets the stored custom deck as a constructor argument.
- The display sorting and rendering of the deck editor, and the quit action: they do not change the rules state.
- A null target for the player's attack action: `Engine.Match.PlayerTargetCard` takes a card. The source does nothing for a null target.
- The object-key order of `for ... in`: JavaScript lists integer-like keys first, in ascending order. The model visits keys in insertion order.
- Definition fields used only for display (description, rarity, image) are not modelled. A missing `atk`/`def` is read as 0.
- The invariant that an instance lies in at most one zone is not stated.
- Engine.Match.AiPerformAttacks: states the frame, the game-over behaviour and what stays unchanged, not the board after each individual attack. Each attack is `Engine.Match.ExecuteCombat`, whose contract gives its board.
- Engine.Match.OpponentMainPhase: states the frame and bounds, not the exact board. Its steps are `Engine.Match.DrawCard` and `Engine.Match.PlayCardFromHand`, whose contracts give the exact boards, with the choice made by `Ai.DrawCalls` and `Ai.ChooseCardToPlay`.
- Engine.Match.ExecuteOpponentTurn: states the hand-over to the player and what stays unchanged, not the whole board after the opponent's turn. No single function describes that board.
- Engine.Match.EndPlayerTurn: weaker in the same way as ExecuteOpponentTurn, which it calls.
- Engine.Match.constructor: states the sizes of the zones and the initial flags. The deck contents are those of `CardManager.Manager.InitializeDeck` and `Engine.Match.ShuffledCopy`.
- Engine.Match.DealOpeningHands: states deck and hand sizes only, not which instances are drawn.
- DeckBuilder.Builder.AutoFillDeck: each round of the top-up may visit the entries in any permutation. The source's random-comparator sort, which also re-sorts the previous round's order in place, is not modelled.
