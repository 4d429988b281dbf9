/** The match engine of gameLogic.js: the module-level `let` state as the
    fields of one `Match` object, and the entry points that update it in
    place. Each entry point is proved to leave the board that the matching
    function of module Rules describes. */
module Engine {
  import opened Cards
  import opened Utils
  import opened CardManager
  import opened Rules
  import Ai

  const MIN_DECK_SIZE := 20

  /** A JS array of cards held by reference: `push` and in-place updates
      change `cards`, `filter` builds a new Zone. */
  class Zone {
    var cards: seq<Card>

    constructor (cs: seq<Card>)
      ensures cards == cs
    {
      cards := cs;
    }
  }

  /** `field.forEach(card => { hasAttackedThisTurn = false; canAttackNextTurn = true })`, as a value. */
  function UntapAll(field: seq<Card>): (r: seq<Card>)
    ensures |r| == |field| && AllUntapped(r)
    ensures forall k :: 0 <= k < |field| ==> r[k] == Untapped(field[k])
  {
    seq(|field|, k requires 0 <= k < |field| => Untapped(field[k]))
  }

  /** `startPlayerTurnLogic` on values: untap the player's field, count the
      turn, give the turn to the player and draw for the player. */
  function StartTurnResult(b: Board, catalog: seq<CardDef>): (r: Board)
  {
    if b.gameIsOver then b
    else
      var s := b.player;
      DrawResult(b.(turnNumber := b.turnNumber + 1, isPlayerTurn := true).With(Joueur, s.(field := UntapAll(s.field))), Joueur, catalog)
  }

  /** Starting the player's turn adds exactly one to the turn number, gives
      the turn to the player, untaps every field card and changes nothing
      else on the field or on the opponent's side. */
  lemma StartTurnProperties(b: Board, catalog: seq<CardDef>)
    requires !b.gameIsOver
    ensures var r := StartTurnResult(b, catalog);
      r.turnNumber == b.turnNumber + 1 && r.isPlayerTurn && !r.gameIsOver &&
      AllUntapped(r.player.field) && |r.player.field| == |b.player.field| &&
      (forall k :: 0 <= k < |b.player.field| ==>
        r.player.field[k] == b.player.field[k].(hasAttackedThisTurn := false, canAttackNextTurn := true)) &&
      r.opponent == b.opponent && r.player.goals == b.player.goals
  {
  }

  /** While the game runs, `aiDrawCard` calls `drawCard('IA')` exactly when
      that draw changes the board: its guard is the draw's own guard. */
  lemma AiDrawIsDrawGuard(b: Board, catalog: seq<CardDef>)
    requires !b.gameIsOver
    ensures Ai.DrawCalls(|b.opponent.deck|, |b.opponent.hand|) == 1 <==> DrawResult(b, IA, catalog) != b
  {
    if Ai.DrawCalls(|b.opponent.deck|, |b.opponent.hand|) == 1 {
      assert |DrawResult(b, IA, catalog).opponent.deck| < |b.opponent.deck|;
    }
  }

  class Match {
    const manager: Manager
    var playerDeck: seq<string>
    var opponentDeck: seq<string>
    var playerHand: seq<Card>
    var opponentHand: seq<Card>
    var playerField: Zone
    var opponentField: Zone
    var playerGoalCards: seq<Option<Card>>
    var opponentGoalCards: seq<Option<Card>>
    var selectedPlayerCard: Option<Card>
    var isPlayerTurn: bool
    var gameIsOver: bool
    var turnNumber: int

    /** The two fields are different arrays. */
    ghost predicate Valid()
      reads this
    {
      playerField != opponentField
    }

    /** The board the fields hold. */
    ghost function State(): Board
      reads this, playerField, opponentField, manager
    {
      Board(
        Side(playerDeck, playerHand, playerField.cards, playerGoalCards),
        Side(opponentDeck, opponentHand, opponentField.cards, opponentGoalCards),
        selectedPlayerCard, isPlayerTurn, gameIsOver, turnNumber, manager.instanceIdCounter)
    }

    function DeckOf(a: Actor): seq<string>
      reads this
    {
      if a == Joueur then playerDeck else opponentDeck
    }

    function HandOf(a: Actor): seq<Card>
      reads this
    {
      if a == Joueur then playerHand else opponentHand
    }

    function FieldOf(a: Actor): Zone
      reads this
    {
      if a == Joueur then playerField else opponentField
    }

    function GoalsOf(a: Actor): seq<Option<Card>>
      reads this
    {
      if a == Joueur then playerGoalCards else opponentGoalCards
    }

    // ------------------------------------------------------------ setup

    /** `setupNewGame`: a fresh match. The player's deck is the stored
        custom deck shuffled when it has at least 20 cards, otherwise the
        default deck; the opponent gets the default deck; both get their
        goal cards; then each side draws five times. */
    constructor (cards: Manager, customDeck: seq<string>,
                 deckRolls: seq<real>, opponentDeckRolls: seq<real>,
                 playerGoalRolls: seq<real>, opponentGoalRolls: seq<real>)
      requires ValidRolls(deckRolls) && |deckRolls| >= |customDeck| - 1 && |deckRolls| >= MIN_DECK_SIZE - 1
      requires ValidRolls(opponentDeckRolls) && |opponentDeckRolls| >= MIN_DECK_SIZE - 1
      requires ValidRolls(playerGoalRolls) && |playerGoalRolls| >= |SpellTraps(cards.allCards)| - 1
      requires ValidRolls(opponentGoalRolls) && |opponentGoalRolls| >= |SpellTraps(cards.allCards)| - 1
      modifies cards
      ensures Valid() && manager == cards && fresh(playerField) && fresh(opponentField)
      ensures isPlayerTurn && !gameIsOver && turnNumber == 1 && selectedPlayerCard.None?
      ensures playerField.cards == [] && opponentField.cards == []
      ensures |playerHand| <= 5 && |opponentHand| <= 5
      ensures |customDeck| >= MIN_DECK_SIZE ==> |playerDeck| == |customDeck| - 5
      ensures |customDeck| < MIN_DECK_SIZE && Monsters(cards.allCards) != [] ==> |playerDeck| == MIN_DECK_SIZE - 5
      ensures Monsters(cards.allCards) != [] ==> |opponentDeck| == MIN_DECK_SIZE - 5
      ensures |cards.allCards| > 0 ==> |playerGoalCards| == 4 && |opponentGoalCards| == 4
    {
      manager := cards;
      playerHand, opponentHand := [], [];
      playerField := new Zone([]);
      opponentField := new Zone([]);
      selectedPlayerCard, isPlayerTurn, gameIsOver, turnNumber := None, true, false, 1;
      var deck: seq<string>;
      if |customDeck| >= MIN_DECK_SIZE {
        deck := ShuffledCopy(customDeck, deckRolls);
      } else {
        deck := cards.InitializeDeck([], MIN_DECK_SIZE, deckRolls);
      }
      var opponentDeck0 := cards.InitializeDeck([], MIN_DECK_SIZE, opponentDeckRolls);
      var playerGoals0 := cards.InitializeGoalCards([], playerGoalRolls);
      var opponentGoals0 := cards.InitializeGoalCards([], opponentGoalRolls);
      playerDeck, opponentDeck := deck, opponentDeck0;
      playerGoalCards, opponentGoalCards := playerGoals0, opponentGoals0;
      new;
      DealOpeningHands();
    }

    /** `[...customDeck]` followed by `shuffleDeck` on the copy. */
    static method ShuffledCopy(customDeck: seq<string>, rolls: seq<real>) returns (r: seq<string>)
      requires ValidRolls(rolls) && |rolls| >= |customDeck| - 1
      ensures r == Shuffled(customDeck, rolls)
      ensures |r| == |customDeck| && multiset(r) == multiset(customDeck)
    {
      var a := new string[|customDeck|](k requires 0 <= k < |customDeck| => customDeck[k]);
      assert a[..] == customDeck;
      ShuffleDeck(a, rolls);
      ShufflePermutation(customDeck, |customDeck| - 1, rolls);
      r := a[..];
    }

    /** The five rounds of opening draws, player first. */
    method DealOpeningHands()
      requires Valid() && !gameIsOver && playerHand == [] && opponentHand == []
      modifies this, manager
      ensures Valid() && playerField == old(playerField) && opponentField == old(opponentField)
      ensures |playerHand| <= 5 && |opponentHand| <= 5
      ensures |old(playerDeck)| >= 5 ==> |playerDeck| == |old(playerDeck)| - 5
      ensures |old(opponentDeck)| >= 5 ==> |opponentDeck| == |old(opponentDeck)| - 5
      ensures playerGoalCards == old(playerGoalCards) && opponentGoalCards == old(opponentGoalCards)
      ensures selectedPlayerCard == old(selectedPlayerCard) && isPlayerTurn == old(isPlayerTurn)
      ensures !gameIsOver && turnNumber == old(turnNumber)
    {
      for i := 0 to 5
        invariant Valid() && playerField == old(playerField) && opponentField == old(opponentField)
        invariant |playerHand| <= i && |opponentHand| <= i
        invariant |old(playerDeck)| >= i ==> |playerDeck| == |old(playerDeck)| - i
        invariant |old(opponentDeck)| >= i ==> |opponentDeck| == |old(opponentDeck)| - i
        invariant playerGoalCards == old(playerGoalCards) && opponentGoalCards == old(opponentGoalCards)
        invariant selectedPlayerCard == old(selectedPlayerCard) && isPlayerTurn == old(isPlayerTurn)
        invariant !gameIsOver && turnNumber == old(turnNumber)
      {
        DrawCard(Joueur);
        DrawCard(IA);
      }
    }

    // ------------------------------------------------------ zone updates

    method SetDeck(a: Actor, d: seq<string>)
      modifies this
      ensures playerField == old(playerField) && opponentField == old(opponentField)
      ensures State() == old(State()).With(a, old(State()).Of(a).(deck := d))
    {
      if a == Joueur { playerDeck := d; } else { opponentDeck := d; }
    }

    method SetHand(a: Actor, h: seq<Card>)
      modifies this
      ensures playerField == old(playerField) && opponentField == old(opponentField)
      ensures State() == old(State()).With(a, old(State()).Of(a).(hand := h))
    {
      if a == Joueur { playerHand := h; } else { opponentHand := h; }
    }

    method SetGoals(a: Actor, g: seq<Option<Card>>)
      modifies this
      ensures playerField == old(playerField) && opponentField == old(opponentField)
      ensures State() == old(State()).With(a, old(State()).Of(a).(goals := g))
    {
      if a == Joueur { playerGoalCards := g; } else { opponentGoalCards := g; }
    }

    /** `field = field.filter(...)`: the field variable now names a new array. */
    method ReplaceField(a: Actor, cs: seq<Card>)
      requires Valid()
      modifies this
      ensures Valid() && fresh(FieldOf(a)) && FieldOf(Other(a)) == old(FieldOf(Other(a)))
      ensures State() == old(State()).With(a, old(State()).Of(a).(field := cs))
    {
      var z := new Zone(cs);
      if a == Joueur { playerField := z; } else { opponentField := z; }
    }

    /** The field's in-place update of one card, or a `push`. */
    method SetFieldCards(a: Actor, cs: seq<Card>)
      requires Valid()
      modifies FieldOf(a)
      ensures State() == old(State()).With(a, old(State()).Of(a).(field := cs))
    {
      FieldOf(a).cards := cs;
    }

    // ------------------------------------------------------- draw / play

    /** `actionDrawCard(actor)`. */
    method DrawCard(actor: Actor)
      requires Valid()
      modifies this, manager
      ensures Valid() && playerField == old(playerField) && opponentField == old(opponentField)
      ensures State() == DrawResult(old(State()), actor, manager.allCards)
    {
      if gameIsOver {
        return;
      }
      var deck := DeckOf(actor);
      var hand := HandOf(actor);
      if |deck| > 0 && |hand| < HAND_LIMIT {
        var cardId := deck[|deck| - 1];
        SetDeck(actor, deck[..|deck| - 1]);
        var cardInstance := manager.CreateCardInstance(cardId);
        if cardInstance.Some? {
          SetHand(actor, hand + [cardInstance.value]);
        }
      }
    }

    /** `handlePlayerDrawCard`: the player's explicit draw, during the player's turn only. */
    method PlayerDrawCard()
      requires Valid()
      modifies this, manager
      ensures Valid() && playerField == old(playerField) && opponentField == old(opponentField)
      ensures State() == if old(isPlayerTurn) then DrawResult(old(State()), Joueur, manager.allCards) else old(State())
    {
      if isPlayerTurn && !gameIsOver {
        DrawCard(Joueur);
      }
    }

    /** `handlePlayCardFromHand(cardInstanceId, actor)`. */
    method PlayCardFromHand(cardInstanceId: nat, actor: Actor)
      requires Valid()
      modifies this, playerField, opponentField
      ensures Valid() && playerField == old(playerField) && opponentField == old(opponentField)
      ensures State() == PlayResult(old(State()), cardInstanceId, actor)
    {
      if gameIsOver || (actor == Joueur && !isPlayerTurn) {
        return;
      }
      var hand := HandOf(actor);
      var field := FieldOf(actor);
      var cardIndex := FindIndex(hand, cardInstanceId);
      if cardIndex.Some? {
        var i := cardIndex.value;
        var cardToPlay := hand[i];
        if cardToPlay.kind == Monstre && |field.cards| < FIELD_LIMIT {
          SetHand(actor, hand[..i] + hand[i + 1..]);
          SetFieldCards(actor, field.cards + [cardToPlay]);
        }
      }
    }

    /** `handleSelectPlayerCardForAttack(cardInstanceId)`: select a field
        card of the player that has not attacked and is not frozen. */
    method SelectPlayerCardForAttack(cardInstanceId: nat)
      modifies this`selectedPlayerCard
      ensures var i := FindIndex(playerField.cards, cardInstanceId);
        selectedPlayerCard ==
          if old(isPlayerTurn) && !old(gameIsOver) && i.Some? &&
             !playerField.cards[i.value].hasAttackedThisTurn && playerField.cards[i.value].canAttackNextTurn
          then Some(playerField.cards[i.value])
          else old(selectedPlayerCard)
    {
      if !isPlayerTurn || gameIsOver {
        return;
      }
      var found := FindIndex(playerField.cards, cardInstanceId);
      if found.None? {
        return;
      }
      var card := playerField.cards[found.value];
      if card.hasAttackedThisTurn {
        return;
      }
      if !card.canAttackNextTurn {
        return;
      }
      selectedPlayerCard := Some(card);
    }

    // ------------------------------------------------------------ combat

    /** `checkWinCondition`: opponent without goals is checked first. */
    method CheckWinCondition() returns (over: bool)
      modifies this`gameIsOver
      ensures over == gameIsOver
      ensures gameIsOver == (old(gameIsOver) || WinCheck(playerGoalCards, opponentGoalCards) != Ongoing)
    {
      if gameIsOver {
        return true;
      }
      if Remaining(opponentGoalCards) == 0 {
        gameIsOver := true;
      } else if Remaining(playerGoalCards) == 0 {
        gameIsOver := true;
      }
      return gameIsOver;
    }

    /** DESTROY_ATTACKER: the owner's field is filtered when the attacker is on it. */
    method DestroyAttackerEffect(attacker: Card, owner: Actor)
      requires Valid()
      modifies this
      ensures Valid() && FieldOf(Other(owner)) == old(FieldOf(Other(owner)))
      ensures FieldOf(owner) == old(FieldOf(owner)) || fresh(FieldOf(owner))
      ensures State() == DestroyAttackerResult(old(State()), attacker, owner)
    {
      var field := FieldOf(owner).cards;
      if FindIndex(field, attacker.instanceId).Some? {
        ReplaceField(owner, RemoveInstance(field, attacker.instanceId));
      }
    }

    /** OPPONENT_DISCARD_RANDOM: a `splice` of the attacking side's hand. */
    method DiscardEffect(owner: Actor, roll: real)
      requires 0.0 <= roll < 1.0
      modifies this
      ensures playerField == old(playerField) && opponentField == old(opponentField)
      ensures State() == DiscardResult(old(State()), owner, roll)
    {
      var hand := HandOf(owner);
      if |hand| > 0 {
        var i := RandomIndex(roll, |hand|);
        SetHand(owner, hand[..i] + hand[i + 1..]);
      }
    }

    /** REDUCE_ATTACKER_ATK_5 and FREEZE_ATTACKER_NEXT_TURN: the attacker's
        instance in the owner's field is updated in place. */
    method WeakenAttackerEffect(attacker: Card, owner: Actor, freeze: bool)
      requires Valid()
      modifies FieldOf(owner)
      ensures State() == old(State()).With(owner, old(State()).Of(owner).(field :=
        if freeze then Freeze(old(FieldOf(owner).cards), attacker.instanceId)
        else ReduceAtk(old(FieldOf(owner).cards), attacker.instanceId)))
    {
      var field := FieldOf(owner).cards;
      var found := FindIndex(field, attacker.instanceId);
      if found.Some? {
        var i := found.value;
        if freeze {
          SetFieldCards(owner, field[i := field[i].(canAttackNextTurn := false)]);
        } else {
          SetFieldCards(owner, field[i := field[i].(atk := Max(0, field[i].atk - 5))]);
        }
      }
    }

    /** BUFF_OWN_MONSTER_ATK_5: a monster of the goal owner's field, picked by `roll`, gains 5 atk. */
    method BuffEffect(goalOwner: Actor, roll: real)
      requires Valid() && 0.0 <= roll < 1.0
      modifies FieldOf(goalOwner)
      ensures State() == old(State()).With(goalOwner, old(State()).Of(goalOwner).(field := Buff(old(FieldOf(goalOwner).cards), roll)))
    {
      var field := FieldOf(goalOwner).cards;
      var monstersToBuff := MonsterPositions(field);
      if |monstersToBuff| > 0 {
        var p := monstersToBuff[RandomIndex(roll, |monstersToBuff|)];
        SetFieldCards(goalOwner, field[p := field[p].(atk := field[p].atk + 5)]);
      }
    }

    /** RETURN_ATTACKER_TO_HAND: filter the attacker off its field, then push it to a hand with room. */
    method ReturnEffect(attacker: Card, owner: Actor)
      requires Valid()
      modifies this
      ensures Valid() && FieldOf(Other(owner)) == old(FieldOf(Other(owner)))
      ensures FieldOf(owner) == old(FieldOf(owner)) || fresh(FieldOf(owner))
      ensures State() == ReturnResult(old(State()), attacker, owner)
    {
      var field := FieldOf(owner).cards;
      var found := FindIndex(field, attacker.instanceId);
      if found.Some? {
        var attackerToReturn := field[found.value];
        ReplaceField(owner, RemoveInstance(field, attacker.instanceId));
        var hand := HandOf(owner);
        if |hand| < HAND_LIMIT {
          SetHand(owner, hand + [attackerToReturn]);
        }
      }
    }

    /** SPECIAL_SUMMON_FROM_HAND_ATK_10: the goal owner's hand is filtered and the monster pushed to its field. */
    method SummonEffect(owner: Actor, roll: real)
      requires Valid() && 0.0 <= roll < 1.0
      modifies this, FieldOf(Other(owner))
      ensures Valid() && playerField == old(playerField) && opponentField == old(opponentField)
      ensures State() == SummonResult(old(State()), owner, roll)
    {
      var goalOwner := Other(owner);
      var summonableMonsters := Summonable(HandOf(goalOwner));
      var field := FieldOf(goalOwner).cards;
      if |summonableMonsters| > 0 && |field| < FIELD_LIMIT {
        var monsterToSummon := summonableMonsters[RandomIndex(roll, |summonableMonsters|)];
        SetHand(goalOwner, RemoveInstance(HandOf(goalOwner), monsterToSummon.instanceId));
        SetFieldCards(goalOwner, field + [monsterToSummon]);
      }
    }

    /** `applyGoalCardEffect(goalCard, attacker, attackerOwner)`. */
    method ApplyGoalCardEffect(goalCard: Card, attacker: Card, attackerOwner: Actor, roll: real)
      requires Valid() && 0.0 <= roll < 1.0
      modifies this, playerField, opponentField, manager
      ensures Valid()
      ensures playerField == old(playerField) || fresh(playerField)
      ensures opponentField == old(opponentField) || fresh(opponentField)
      ensures State() == EffectResult(old(State()), goalCard, attacker, attackerOwner, roll, manager.allCards)
    {
      if UpdatesFieldCards(EffectOf(goalCard.effectOnDestroy)) {
        FieldCardEffect(goalCard, attacker, attackerOwner, roll);
      } else {
        ZoneEffect(goalCard, attacker, attackerOwner, roll);
      }
    }

    /** The effects that update a card of a field in place. */
    method FieldCardEffect(goalCard: Card, attacker: Card, owner: Actor, roll: real)
      requires Valid() && 0.0 <= roll < 1.0
      requires UpdatesFieldCards(EffectOf(goalCard.effectOnDestroy))
      modifies playerField, opponentField
      ensures State() == EffectResult(old(State()), goalCard, attacker, owner, roll, manager.allCards)
    {
      match EffectOf(goalCard.effectOnDestroy)
      case ReduceAttackerAtk5 => WeakenAttackerEffect(attacker, owner, false);
      case BuffOwnMonsterAtk5 => BuffEffect(Other(owner), roll);
      case FreezeAttackerNextTurn => WeakenAttackerEffect(attacker, owner, true);
    }

    /** The effects that move cards between zones, plus the no-op default. */
    method ZoneEffect(goalCard: Card, attacker: Card, owner: Actor, roll: real)
      requires Valid() && 0.0 <= roll < 1.0
      requires !UpdatesFieldCards(EffectOf(goalCard.effectOnDestroy))
      modifies this, playerField, opponentField, manager
      ensures Valid()
      ensures playerField == old(playerField) || fresh(playerField)
      ensures opponentField == old(opponentField) || fresh(opponentField)
      ensures State() == EffectResult(old(State()), goalCard, attacker, owner, roll, manager.allCards)
    {
      match EffectOf(goalCard.effectOnDestroy)
      case DestroyAttacker => DestroyAttackerEffect(attacker, owner);
      case OpponentDiscardRandom => DiscardEffect(owner, roll);
      case OwnerDrawCard => DrawCard(Other(owner));
      case ReturnAttackerToHand => ReturnEffect(attacker, owner);
      case SpecialSummonFromHandAtk10 => SummonEffect(owner, roll);
      case Unrecognized =>
    }

    /** The attacker's instance in its field is marked as having attacked. */
    method MarkAttacker(attacker: Card, owner: Actor)
      requires Valid()
      modifies FieldOf(owner)
      ensures State() == Marked(old(State()), attacker, owner)
    {
      var attackerField := FieldOf(owner).cards;
      SetFieldCards(owner, UpdateInstance(attackerField, attacker.instanceId, (c: Card) => c.(hasAttackedThisTurn := true)));
    }

    /** The monster branch of `executeCombat`: the defender is filtered out of its field when it loses. */
    method StrikeMonsterTarget(attacker: Card, target: Card, owner: Actor)
      requires Valid()
      modifies this
      ensures Valid()
      ensures FieldOf(owner) == old(FieldOf(owner)) && (FieldOf(Other(owner)) == old(FieldOf(Other(owner))) || fresh(FieldOf(Other(owner))))
      ensures State() == StrikeMonster(old(State()), attacker, target, owner)
    {
      if attacker.atk > target.def {
        ReplaceField(Other(owner), RemoveInstance(FieldOf(Other(owner)).cards, target.instanceId));
      }
    }

    /** The goal branch of `executeCombat`: reveal, apply the effect, null the slot. */
    method StrikeGoalTarget(attacker: Card, target: Card, owner: Actor, roll: real)
      requires Valid() && 0.0 <= roll < 1.0
      modifies this, playerField, opponentField, manager
      ensures Valid()
      ensures playerField == old(playerField) || fresh(playerField)
      ensures opponentField == old(opponentField) || fresh(opponentField)
      ensures State() == StrikeGoal(old(State()), attacker, target, owner, roll, manager.allCards)
    {
      SetGoals(Other(owner), Reveal(GoalsOf(Other(owner)), target.instanceId));
      ApplyGoalCardEffect(target, attacker, owner, roll);
      SetGoals(Other(owner), ClearSlot(GoalsOf(Other(owner)), target.instanceId));
    }

    /** `executeCombat` once the attack is allowed, up to the win check. */
    method ResolveCombat(attacker: Card, target: Card, owner: Actor, roll: real)
      requires Valid() && 0.0 <= roll < 1.0
      modifies this, playerField, opponentField, manager
      ensures Valid()
      ensures playerField == old(playerField) || fresh(playerField)
      ensures opponentField == old(opponentField) || fresh(opponentField)
      ensures State() == Resolve(old(State()), attacker, target, owner, roll, manager.allCards)
    {
      MarkAttacker(attacker, owner);
      if target.kind == Monstre {
        StrikeMonsterTarget(attacker, target, owner);
      } else if IsGoalKind(target.kind) {
        StrikeGoalTarget(attacker, target, owner, roll);
      }
      if owner == Joueur { selectedPlayerCard := None; }
    }

    /** `if (attackerOwner === "Joueur") selectedPlayerCard = null`. */
    method ClearSelectionOf(owner: Actor)
      modifies this`selectedPlayerCard
      ensures State() == old(State()).(selected := ClearedSelection(old(State()), owner))
    {
      if owner == Joueur { selectedPlayerCard := None; }
    }

    /** `executeCombat(attacker, target, attackerOwner)`. */
    method ExecuteCombat(attacker: Card, target: Card, attackerOwner: Actor, roll: real)
      requires Valid() && 0.0 <= roll < 1.0
      modifies this, playerField, opponentField, manager
      ensures Valid()
      ensures playerField == old(playerField) || fresh(playerField)
      ensures opponentField == old(opponentField) || fresh(opponentField)
      ensures State() == CombatResult(old(State()), attacker, target, attackerOwner, roll, manager.allCards)
    {
      ghost var b := State();
      var owner := attackerOwner;
      if gameIsOver || attacker.hasAttackedThisTurn || !attacker.canAttackNextTurn {
        ClearSelectionOf(owner);
        return;
      }
      var defenderOwnerField := FieldOf(Other(owner));
      if FieldHasProtector(defenderOwnerField.cards) {
        if target.kind == Monstre && PROTECTOR !in target.abilities {
          ClearSelectionOf(owner);
          return;
        }
      }
      assert !CombatRefused(b, attacker) && !ProtectorBlocks(b, target, owner);
      ResolveCombat(attacker, target, owner, roll);
      ghost var resolved := State();
      assert resolved == Resolve(b, attacker, target, owner, roll, manager.allCards);
      var _ := CheckWinCondition();
      assert State() == resolved.(gameIsOver := WinCheck(resolved.player.goals, resolved.opponent.goals) != Ongoing);
    }

    /** The `onTargetCard` action: the selected card, if any, attacks the target. */
    method PlayerTargetCard(target: Card, roll: real)
      requires Valid() && 0.0 <= roll < 1.0
      modifies this, playerField, opponentField, manager
      ensures Valid()
      ensures old(selectedPlayerCard).None? ==> State() == old(State())
      ensures old(selectedPlayerCard).Some? ==>
        State() == CombatResult(old(State()), old(selectedPlayerCard).value, target, Joueur, roll, manager.allCards)
    {
      if selectedPlayerCard.Some? {
        ExecuteCombat(selectedPlayerCard.value, target, Joueur, roll);
      }
    }

    // --------------------------------------------------- turn controller

    /** The untap `forEach` over one field, in place. */
    method UntapField(z: Zone)
      modifies z
      ensures z.cards == UntapAll(old(z.cards))
    {
      for k := 0 to |z.cards|
        invariant |z.cards| == |old(z.cards)|
        invariant forall j :: 0 <= j < k ==> z.cards[j] == Untapped(old(z.cards)[j])
        invariant forall j :: k <= j < |z.cards| ==> z.cards[j] == old(z.cards)[j]
      {
        z.cards := z.cards[k := Untapped(z.cards[k])];
      }
    }

    /** `startPlayerTurnLogic`. */
    method StartPlayerTurn()
      requires Valid()
      modifies this, playerField, manager
      ensures Valid() && playerField == old(playerField) && opponentField == old(opponentField)
      ensures State() == StartTurnResult(old(State()), manager.allCards)
    {
      if gameIsOver {
        return;
      }
      turnNumber := turnNumber + 1;
      isPlayerTurn := true;
      UntapField(playerField);
      DrawCard(Joueur);
    }

    /** `aiPerformAttacks` with the engine's `executeAttack`: every attacker
        of the list fixed up front attacks in field order the target the
        opponent picks from the player field array it was handed
        (`playerFieldView`, which a later `filter` can leave stale) and the
        live goal array. `gameIsOverView` is the snapshot's copied flag. */
    method AiPerformAttacks(gameIsOverView: bool, opponentFieldView: seq<Card>, playerFieldView: Zone,
                            targetRolls: seq<real>, effectRolls: seq<real>)
      requires Valid()
      requires ValidRolls(targetRolls) && |targetRolls| >= |Ai.Attackers(opponentFieldView)|
      requires ValidRolls(effectRolls) && |effectRolls| >= |Ai.Attackers(opponentFieldView)|
      modifies this, playerField, opponentField, manager
      ensures Valid()
      ensures playerField == old(playerField) || fresh(playerField)
      ensures opponentField == old(opponentField) || fresh(opponentField)
      ensures turnNumber == old(turnNumber) && isPlayerTurn == old(isPlayerTurn)
      ensures selectedPlayerCard == old(selectedPlayerCard) && opponentGoalCards == old(opponentGoalCards)
      ensures old(gameIsOver) ==> gameIsOver
      ensures old(gameIsOver) || gameIsOverView ==> State() == old(State())
    {
      if gameIsOverView {
        return;
      }
      var attackers := Ai.Attackers(opponentFieldView);
      ghost var finalBoard := State();
      var k := 0;
      while k < |attackers|
        invariant Valid() && 0 <= k <= |attackers|
        invariant playerField == old(playerField) || fresh(playerField)
        invariant opponentField == old(opponentField) || fresh(opponentField)
        invariant turnNumber == old(turnNumber) && isPlayerTurn == old(isPlayerTurn)
        invariant selectedPlayerCard == old(selectedPlayerCard) && opponentGoalCards == old(opponentGoalCards)
        invariant old(gameIsOver) ==> gameIsOver && finalBoard == old(State())
        // once an attack ends the game, the later attacks change nothing
        invariant gameIsOver ==> State() == finalBoard
      {
        if gameIsOverView {
          break;
        }
        var target := Ai.ChooseTarget(playerFieldView.cards, playerGoalCards, targetRolls[k]);
        ghost var wasOver := gameIsOver;
        if target.Some? {
          ExecuteCombat(attackers[k], target.value, IA, effectRolls[k]);
        }
        if !wasOver && gameIsOver {
          finalBoard := State();
        }
        k := k + 1;
      }
    }

    /** The opponent's untap, `aiDrawCard` and `aiPlayCard`. */
    method OpponentMainPhase()
      requires Valid() && !gameIsOver
      modifies this, playerField, opponentField, manager
      ensures Valid() && playerField == old(playerField) && opponentField == old(opponentField)
      ensures |opponentField.cards| <= |old(opponentField.cards)| + 1
      ensures playerField.cards == old(playerField.cards)
      ensures playerGoalCards == old(playerGoalCards) && opponentGoalCards == old(opponentGoalCards)
      ensures selectedPlayerCard == old(selectedPlayerCard) && isPlayerTurn == old(isPlayerTurn)
      ensures !gameIsOver && turnNumber == old(turnNumber)
    {
      UntapField(opponentField);
      if Ai.DrawCalls(|opponentDeck|, |opponentHand|) == 1 {
        DrawCard(IA);
      }
      var choice := Ai.ChooseCardToPlay(opponentHand, opponentField.cards);
      if choice.Some? {
        PlayCardFromHand(choice.value.instanceId, IA);
      }
    }

    /** `executeOpponentTurnLogic`: untap, draw, play, attack, then hand the
        turn back to the player unless the game ended. */
    method ExecuteOpponentTurn(targetRolls: seq<real>, effectRolls: seq<real>)
      requires Valid()
      requires ValidRolls(targetRolls) && |targetRolls| > |opponentField.cards|
      requires ValidRolls(effectRolls) && |effectRolls| > |opponentField.cards|
      modifies this, playerField, opponentField, manager
      ensures Valid()
      ensures old(gameIsOver) ==> State() == old(State())
      ensures !old(gameIsOver) && !gameIsOver ==>
        isPlayerTurn && turnNumber == old(turnNumber) + 1 && AllUntapped(playerField.cards)
      ensures !old(gameIsOver) && gameIsOver ==> isPlayerTurn == old(isPlayerTurn) && turnNumber == old(turnNumber)
      ensures selectedPlayerCard == old(selectedPlayerCard) && opponentGoalCards == old(opponentGoalCards)
    {
      if gameIsOver {
        if !isPlayerTurn { StartPlayerTurn(); }
        return;
      }
      OpponentMainPhase();
      var gameIsOverView := gameIsOver;
      AiPerformAttacks(gameIsOverView, opponentField.cards, playerField, targetRolls, effectRolls);
      // the copied flag is false here, so its re-check before the hand-over is left out
      if !gameIsOver {
        ghost var afterAttacks := State();
        StartPlayerTurn();
        StartTurnProperties(afterAttacks, manager.allCards);
      }
    }

    /** `endPlayerTurn`: clear the selection, pass the turn, play the opponent's turn. */
    method EndPlayerTurn(targetRolls: seq<real>, effectRolls: seq<real>)
      requires Valid()
      requires ValidRolls(targetRolls) && |targetRolls| > |opponentField.cards|
      requires ValidRolls(effectRolls) && |effectRolls| > |opponentField.cards|
      modifies this, playerField, opponentField, manager
      ensures Valid()
      ensures !old(isPlayerTurn) || old(gameIsOver) ==> State() == old(State())
      ensures old(isPlayerTurn) && !old(gameIsOver) ==> selectedPlayerCard.None?
      ensures old(isPlayerTurn) && !old(gameIsOver) && !gameIsOver ==>
        isPlayerTurn && turnNumber == old(turnNumber) + 1 && AllUntapped(playerField.cards)
      ensures old(isPlayerTurn) && !old(gameIsOver) && gameIsOver ==> !isPlayerTurn && turnNumber == old(turnNumber)
    {
      if !isPlayerTurn || gameIsOver {
        return;
      }
      isPlayerTurn := false;
      selectedPlayerCard := None;
      ExecuteOpponentTurn(targetRolls, effectRolls);
    }
  }
}
