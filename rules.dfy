/** The match rules of gameLogic.js stated on values: a `Board` holds what
    the module-level `let` variables hold, and each function gives the board
    one engine entry point leaves behind. Engine.Match carries these out in
    place and is proved to agree with them. */
module Rules {
  import opened Cards
  import opened Utils
  import opened CardManager

  const HAND_LIMIT := 7
  const FIELD_LIMIT := 5

  datatype Actor = Joueur | IA

  function Other(a: Actor): Actor {
    if a == Joueur then IA else Joueur
  }

  /** One player's zones: deck of card ids (top = end), hand, field and the
      goal slots (null once destroyed). */
  datatype Side = Side(deck: seq<string>, hand: seq<Card>, field: seq<Card>, goals: seq<Option<Card>>)

  /** The whole match state; `counter` is the factory's `instanceIdCounter`. */
  datatype Board = Board(
    player: Side,
    opponent: Side,
    selected: Option<Card>,
    isPlayerTurn: bool,
    gameIsOver: bool,
    turnNumber: int,
    counter: nat)
  {
    function Of(a: Actor): Side {
      if a == Joueur then player else opponent
    }

    function With(a: Actor, s: Side): (r: Board)
      ensures r.Of(a) == s && r.Of(Other(a)) == Of(Other(a))
      ensures r.selected == selected && r.isPlayerTurn == isPlayerTurn && r.gameIsOver == gameIsOver
      ensures r.turnNumber == turnNumber && r.counter == counter
    {
      if a == Joueur then this.(player := s) else this.(opponent := s)
    }
  }

  // ---------------------------------------------------------------- draw

  /** `actionDrawCard(actor)`: pop the deck's top id and append a fresh
      instance of it to the hand; an id the catalog does not know is lost. */
  function DrawResult(b: Board, a: Actor, catalog: seq<CardDef>): (r: Board)
    ensures b.gameIsOver || |b.Of(a).deck| == 0 || |b.Of(a).hand| >= HAND_LIMIT ==> r == b
    ensures !b.gameIsOver && |b.Of(a).deck| > 0 && |b.Of(a).hand| < HAND_LIMIT ==>
      r.Of(a).deck == b.Of(a).deck[..|b.Of(a).deck| - 1] &&
      |b.Of(a).hand| <= |r.Of(a).hand| <= |b.Of(a).hand| + 1 &&
      r.Of(a).hand[..|b.Of(a).hand|] == b.Of(a).hand &&
      (|r.Of(a).hand| > |b.Of(a).hand| <==> Find(catalog, b.Of(a).deck[|b.Of(a).deck| - 1]).Some?)
    ensures |r.Of(a).hand| > |b.Of(a).hand| ==>
      r.counter == b.counter + 1 && r.Of(a).hand[|b.Of(a).hand|].instanceId == r.counter &&
      r.Of(a).hand[|b.Of(a).hand|].id == b.Of(a).deck[|b.Of(a).deck| - 1]
    ensures |r.Of(a).hand| == |b.Of(a).hand| ==> r.counter == b.counter
    ensures r.Of(a).field == b.Of(a).field && r.Of(a).goals == b.Of(a).goals
    ensures r.Of(Other(a)) == b.Of(Other(a))
    ensures r.selected == b.selected && r.isPlayerTurn == b.isPlayerTurn
    ensures r.gameIsOver == b.gameIsOver && r.turnNumber == b.turnNumber
  {
    var s := b.Of(a);
    if b.gameIsOver || !(|s.deck| > 0 && |s.hand| < HAND_LIMIT) then b
    else
      var cardId := s.deck[|s.deck| - 1];
      var rest := s.deck[..|s.deck| - 1];
      match Find(catalog, cardId)
      case None => b.With(a, s.(deck := rest))
      case Some(d) => b.With(a, s.(deck := rest, hand := s.hand + [Instantiate(d, b.counter + 1)])).(counter := b.counter + 1)
  }

  // ---------------------------------------------------------------- play

  /** The condition under which `handlePlayCardFromHand` moves a card. */
  predicate PlayAllowed(b: Board, iid: nat, a: Actor) {
    !b.gameIsOver && !(a == Joueur && !b.isPlayerTurn) &&
    FindIndex(b.Of(a).hand, iid).Some? &&
    b.Of(a).hand[FindIndex(b.Of(a).hand, iid).value].kind == Monstre &&
    |b.Of(a).field| < FIELD_LIMIT
  }

  /** `handlePlayCardFromHand(cardInstanceId, actor)`. */
  function PlayResult(b: Board, iid: nat, a: Actor): (r: Board)
    ensures !PlayAllowed(b, iid, a) ==> r == b
    ensures PlayAllowed(b, iid, a) ==>
      var i := FindIndex(b.Of(a).hand, iid).value;
      r.Of(a).hand == b.Of(a).hand[..i] + b.Of(a).hand[i + 1..] &&
      r.Of(a).field == b.Of(a).field + [b.Of(a).hand[i]] &&
      r.Of(a).field[|r.Of(a).field| - 1].kind == Monstre &&
      r.Of(a).field[|r.Of(a).field| - 1].instanceId == iid
    ensures |r.Of(a).hand| + |r.Of(a).field| == |b.Of(a).hand| + |b.Of(a).field|
    ensures |r.Of(a).field| <= FIELD_LIMIT || r.Of(a).field == b.Of(a).field
    ensures r.Of(a).deck == b.Of(a).deck && r.Of(a).goals == b.Of(a).goals
    ensures r.Of(Other(a)) == b.Of(Other(a))
    ensures r.selected == b.selected && r.isPlayerTurn == b.isPlayerTurn && r.gameIsOver == b.gameIsOver
    ensures r.turnNumber == b.turnNumber && r.counter == b.counter
  {
    if !PlayAllowed(b, iid, a) then b
    else
      var s := b.Of(a);
      var i := FindIndex(s.hand, iid).value;
      b.With(a, s.(hand := s.hand[..i] + s.hand[i + 1..], field := s.field + [s.hand[i]]))
  }

  // ---------------------------------------------------------- goal effects

  /** The closed set of destroy-effect keys, plus the fallback for any other string. */
  datatype Effect =
    | DestroyAttacker
    | OpponentDiscardRandom
    | OwnerDrawCard
    | ReduceAttackerAtk5
    | BuffOwnMonsterAtk5
    | ReturnAttackerToHand
    | FreezeAttackerNextTurn
    | SpecialSummonFromHandAtk10
    | Unrecognized

  /** The `switch (effectKey)` of `applyGoalCardEffect`. */
  function EffectOf(key: string): (e: Effect)
    ensures e == Unrecognized <==>
      key !in {"DESTROY_ATTACKER", "OPPONENT_DISCARD_RANDOM", "OWNER_DRAW_CARD",
               "REDUCE_ATTACKER_MONSTER_ATK_5", "BUFF_OWN_MONSTER_ATK_5", "RETURN_ATTACKER_TO_HAND",
               "FREEZE_ATTACKER_NEXT_TURN", "SPECIAL_SUMMON_FROM_HAND_ATK_10"}
  {
    if key == "DESTROY_ATTACKER" then DestroyAttacker
    else if key == "OPPONENT_DISCARD_RANDOM" then OpponentDiscardRandom
    else if key == "OWNER_DRAW_CARD" then OwnerDrawCard
    else if key == "REDUCE_ATTACKER_MONSTER_ATK_5" then ReduceAttackerAtk5
    else if key == "BUFF_OWN_MONSTER_ATK_5" then BuffOwnMonsterAtk5
    else if key == "RETURN_ATTACKER_TO_HAND" then ReturnAttackerToHand
    else if key == "FREEZE_ATTACKER_NEXT_TURN" then FreezeAttackerNextTurn
    else if key == "SPECIAL_SUMMON_FROM_HAND_ATK_10" then SpecialSummonFromHandAtk10
    else Unrecognized
  }

  function Max(x: int, y: int): int {
    if x >= y then x else y
  }

  /** Positions of the Monstre cards of a field, in field order. */
  function MonsterPositions(field: seq<Card>): (r: seq<nat>)
    ensures |r| <= |field|
    ensures forall k :: 0 <= k < |r| ==> r[k] < |field| && field[r[k]].kind == Monstre
    ensures (exists k :: 0 <= k < |field| && field[k].kind == Monstre) ==> |r| > 0
  {
    if |field| == 0 then []
    else
      var tail := field[1..];
      var rest := MonsterPositions(tail);
      var shifted := Shift(rest);
      assert forall k :: 0 <= k < |rest| ==> field[shifted[k]] == tail[rest[k]];
      assert field[0].kind != Monstre && (exists k :: 0 <= k < |field| && field[k].kind == Monstre) ==>
        exists k :: 0 <= k < |tail| && tail[k].kind == Monstre by {
        if field[0].kind != Monstre && exists k :: 0 <= k < |field| && field[k].kind == Monstre {
          var k :| 0 <= k < |field| && field[k].kind == Monstre;
          assert tail[k - 1] == field[k];
        }
      }
      (if field[0].kind == Monstre then [0] else []) + shifted
  }

  /** Every position moved one place to the right. */
  function Shift(s: seq<nat>): (r: seq<nat>)
    ensures |r| == |s| && forall k :: 0 <= k < |s| ==> r[k] == s[k] + 1
  {
    seq(|s|, k requires 0 <= k < |s| => s[k] + 1)
  }

  /** `hand.filter(c => c.type === "Monstre" && c.atk <= 10)`. */
  function Summonable(hand: seq<Card>): (r: seq<Card>)
    ensures |r| <= |hand|
    ensures forall c :: c in r <==> c in hand && c.kind == Monstre && c.atk <= 10
  {
    if |hand| == 0 then []
    else (if hand[0].kind == Monstre && hand[0].atk <= 10 then [hand[0]] else []) + Summonable(hand[1..])
  }

  /** REDUCE_ATTACKER_MONSTER_ATK_5 on one field. */
  function ReduceAtk(field: seq<Card>, iid: nat): (r: seq<Card>)
    ensures |r| == |field|
    ensures FindIndex(field, iid).None? ==> r == field
    ensures FindIndex(field, iid).Some? ==>
      var i := FindIndex(field, iid).value;
      r[i] == field[i].(atk := Max(0, field[i].atk - 5)) && r[i].atk >= 0 &&
      forall k :: 0 <= k < |field| && k != i ==> r[k] == field[k]
  {
    UpdateInstance(field, iid, (c: Card) => c.(atk := Max(0, c.atk - 5)))
  }

  /** FREEZE_ATTACKER_NEXT_TURN on one field. */
  function Freeze(field: seq<Card>, iid: nat): (r: seq<Card>)
    ensures |r| == |field|
    ensures FindIndex(field, iid).None? ==> r == field
    ensures FindIndex(field, iid).Some? ==>
      var i := FindIndex(field, iid).value;
      r[i] == field[i].(canAttackNextTurn := false) &&
      forall k :: 0 <= k < |field| && k != i ==> r[k] == field[k]
  {
    UpdateInstance(field, iid, (c: Card) => c.(canAttackNextTurn := false))
  }

  /** BUFF_OWN_MONSTER_ATK_5: the monster picked by `roll` among the field's
      monsters gains 5 atk. */
  function Buff(field: seq<Card>, roll: real): (r: seq<Card>)
    requires 0.0 <= roll < 1.0
    ensures |r| == |field|
    ensures (forall k :: 0 <= k < |field| ==> field[k].kind != Monstre) ==> r == field
    ensures (exists k :: 0 <= k < |field| && field[k].kind == Monstre) ==>
      exists p :: 0 <= p < |field| && field[p].kind == Monstre &&
        r[p] == field[p].(atk := field[p].atk + 5) &&
        forall k :: 0 <= k < |field| && k != p ==> r[k] == field[k]
  {
    var monsters := MonsterPositions(field);
    if |monsters| == 0 then field
    else
      var p := monsters[RandomIndex(roll, |monsters|)];
      field[p := field[p].(atk := field[p].atk + 5)]
  }

  /** DESTROY_ATTACKER: the attacker leaves its owner's field, if still there. */
  function DestroyAttackerResult(b: Board, attacker: Card, owner: Actor): (r: Board)
    ensures r.Of(owner).field == RemoveInstance(b.Of(owner).field, attacker.instanceId)
    ensures forall c :: c in r.Of(owner).field ==> c.instanceId != attacker.instanceId
    ensures r.Of(owner).hand == b.Of(owner).hand && r.Of(owner).deck == b.Of(owner).deck
    ensures r.Of(owner).goals == b.Of(owner).goals && r.Of(Other(owner)) == b.Of(Other(owner))
  {
    var sa := b.Of(owner);
    b.With(owner, sa.(field := RemoveInstance(sa.field, attacker.instanceId)))
  }

  /** OPPONENT_DISCARD_RANDOM: the attacking side discards the hand card
      picked by `roll`, if its hand is not empty. */
  function DiscardResult(b: Board, owner: Actor, roll: real): (r: Board)
    requires 0.0 <= roll < 1.0
    ensures |b.Of(owner).hand| == 0 ==> r == b
    ensures |b.Of(owner).hand| > 0 ==>
      exists i :: 0 <= i < |b.Of(owner).hand| &&
        r.Of(owner).hand == b.Of(owner).hand[..i] + b.Of(owner).hand[i + 1..]
    ensures r.Of(owner).field == b.Of(owner).field && r.Of(owner).deck == b.Of(owner).deck
    ensures r.Of(owner).goals == b.Of(owner).goals && r.Of(Other(owner)) == b.Of(Other(owner))
  {
    var sa := b.Of(owner);
    if |sa.hand| > 0 then
      var i := RandomIndex(roll, |sa.hand|);
      b.With(owner, sa.(hand := sa.hand[..i] + sa.hand[i + 1..]))
    else b
  }

  /** RETURN_ATTACKER_TO_HAND: the attacker always leaves the field; it joins
      the hand only when the hand holds fewer than 7 cards, else it is lost. */
  function ReturnResult(b: Board, attacker: Card, owner: Actor): (r: Board)
    ensures FindIndex(b.Of(owner).field, attacker.instanceId).None? ==> r == b
    ensures r.Of(owner).field == RemoveInstance(b.Of(owner).field, attacker.instanceId)
    ensures FindIndex(b.Of(owner).field, attacker.instanceId).Some? ==>
      var back := b.Of(owner).field[FindIndex(b.Of(owner).field, attacker.instanceId).value];
      back.instanceId == attacker.instanceId &&
      r.Of(owner).hand == if |b.Of(owner).hand| < HAND_LIMIT then b.Of(owner).hand + [back] else b.Of(owner).hand
    ensures r.Of(owner).deck == b.Of(owner).deck && r.Of(owner).goals == b.Of(owner).goals
    ensures r.Of(Other(owner)) == b.Of(Other(owner))
  {
    var sa := b.Of(owner);
    match FindIndex(sa.field, attacker.instanceId)
    case None => b
    case Some(i) =>
      var back := sa.field[i];
      var field' := RemoveInstance(sa.field, attacker.instanceId);
      if |sa.hand| < HAND_LIMIT then b.With(owner, sa.(field := field', hand := sa.hand + [back]))
      else b.With(owner, sa.(field := field'))
  }

  /** SPECIAL_SUMMON_FROM_HAND_ATK_10: the goal owner moves the hand monster
      of atk <= 10 picked by `roll` to its field, if its field has room. */
  function SummonResult(b: Board, owner: Actor, roll: real): (r: Board)
    requires 0.0 <= roll < 1.0
    ensures Summonable(b.Of(Other(owner)).hand) == [] || |b.Of(Other(owner)).field| >= FIELD_LIMIT ==> r == b
    ensures Summonable(b.Of(Other(owner)).hand) != [] && |b.Of(Other(owner)).field| < FIELD_LIMIT ==>
      exists m :: m in b.Of(Other(owner)).hand && m.kind == Monstre && m.atk <= 10 &&
        r.Of(Other(owner)).field == b.Of(Other(owner)).field + [m] &&
        r.Of(Other(owner)).hand == RemoveInstance(b.Of(Other(owner)).hand, m.instanceId)
    ensures r.Of(Other(owner)).deck == b.Of(Other(owner)).deck && r.Of(Other(owner)).goals == b.Of(Other(owner)).goals
    ensures r.Of(owner) == b.Of(owner)
  {
    var so := b.Of(Other(owner));
    var summonable := Summonable(so.hand);
    if |summonable| > 0 && |so.field| < FIELD_LIMIT then
      var m := summonable[RandomIndex(roll, |summonable|)];
      b.With(Other(owner), so.(hand := RemoveInstance(so.hand, m.instanceId), field := so.field + [m]))
    else b
  }

  /** `applyGoalCardEffect(goalCard, attacker, attackerOwner)`; `roll` is the
      `Math.random()` of the effects that pick at random. */
  /** The effects that change a field card in place rather than a zone. */
  predicate UpdatesFieldCards(e: Effect) {
    e == ReduceAttackerAtk5 || e == BuffOwnMonsterAtk5 || e == FreezeAttackerNextTurn
  }

  function EffectResult(b: Board, goal: Card, attacker: Card, owner: Actor, roll: real, catalog: seq<CardDef>): (r: Board)
    requires 0.0 <= roll < 1.0
    // no effect touches a goal slot, the turn, the selection or the game-over flag
    ensures r.player.goals == b.player.goals && r.opponent.goals == b.opponent.goals
    ensures r.selected == b.selected && r.isPlayerTurn == b.isPlayerTurn
    ensures r.gameIsOver == b.gameIsOver && r.turnNumber == b.turnNumber
    // only the goal owner's draw creates an instance
    ensures EffectOf(goal.effectOnDestroy) != OwnerDrawCard ==> r.counter == b.counter
    // an unknown key changes nothing
    ensures EffectOf(goal.effectOnDestroy) == Unrecognized ==> r == b
  {
    var sa := b.Of(owner);
    var so := b.Of(Other(owner));
    match EffectOf(goal.effectOnDestroy)
    case DestroyAttacker => DestroyAttackerResult(b, attacker, owner)
    case OpponentDiscardRandom => DiscardResult(b, owner, roll)
    case OwnerDrawCard => DrawResult(b, Other(owner), catalog)
    case ReduceAttackerAtk5 => b.With(owner, sa.(field := ReduceAtk(sa.field, attacker.instanceId)))
    case BuffOwnMonsterAtk5 => b.With(Other(owner), so.(field := Buff(so.field, roll)))
    case ReturnAttackerToHand => ReturnResult(b, attacker, owner)
    case FreezeAttackerNextTurn => b.With(owner, sa.(field := Freeze(sa.field, attacker.instanceId)))
    case SpecialSummonFromHandAtk10 => SummonResult(b, owner, roll)
    case Unrecognized => b
  }

  // ------------------------------------------------------------ win check

  datatype Outcome = Ongoing | PlayerWins | PlayerLoses

  /** `goals.filter(gc => gc !== null).length`. */
  function Remaining(goals: seq<Option<Card>>): (n: nat)
    ensures n <= |goals|
    ensures n == 0 <==> forall k :: 0 <= k < |goals| ==> goals[k].None?
  {
    if |goals| == 0 then 0
    else (if goals[0].Some? then 1 else 0) + Remaining(goals[1..])
  }

  /** `checkWinCondition`: the opponent-empty check comes first. */
  function WinCheck(playerGoals: seq<Option<Card>>, opponentGoals: seq<Option<Card>>): (o: Outcome)
    ensures o == PlayerWins <==> Remaining(opponentGoals) == 0
    ensures o == PlayerLoses <==> Remaining(opponentGoals) > 0 && Remaining(playerGoals) == 0
  {
    if Remaining(opponentGoals) == 0 then PlayerWins
    else if Remaining(playerGoals) == 0 then PlayerLoses
    else Ongoing
  }

  // --------------------------------------------------------------- combat

  /** The first goal slot holding the instance `iid`. */
  function GoalSlot(goals: seq<Option<Card>>, iid: nat): (r: Option<nat>)
    ensures r.None? <==> forall k :: 0 <= k < |goals| ==> !(goals[k].Some? && goals[k].value.instanceId == iid)
    ensures r.Some? ==> r.value < |goals| && goals[r.value].Some? && goals[r.value].value.instanceId == iid
    ensures r.Some? ==> forall k :: 0 <= k < r.value ==> !(goals[k].Some? && goals[k].value.instanceId == iid)
  {
    if |goals| == 0 then None
    else if goals[0].Some? && goals[0].value.instanceId == iid then Some(0)
    else match GoalSlot(goals[1..], iid)
      case None => None
      case Some(k) => Some(k + 1)
  }

  /** `target.isRevealed = true` on the goal slot holding the target. */
  function Reveal(goals: seq<Option<Card>>, iid: nat): (r: seq<Option<Card>>)
    ensures |r| == |goals|
    ensures GoalSlot(r, iid) == GoalSlot(goals, iid)
    ensures forall k :: 0 <= k < |goals| && Some(k) != GoalSlot(goals, iid) ==> r[k] == goals[k]
  {
    match GoalSlot(goals, iid)
    case None => goals
    case Some(k) =>
      var r := goals[k := Some(goals[k].value.(isRevealed := true))];
      GoalSlotSameShape(goals, r, iid);
      r
  }

  /** Two slot arrays with the same null slots and the same instance ids
      have the same matching slot. */
  lemma {:induction false} GoalSlotSameShape(g1: seq<Option<Card>>, g2: seq<Option<Card>>, iid: nat)
    requires |g1| == |g2|
    requires forall k :: 0 <= k < |g1| ==> g1[k].Some? == g2[k].Some?
    requires forall k :: 0 <= k < |g1| && g1[k].Some? ==> g1[k].value.instanceId == g2[k].value.instanceId
    ensures GoalSlot(g1, iid) == GoalSlot(g2, iid)
  {
    if |g1| > 0 {
      GoalSlotSameShape(g1[1..], g2[1..], iid);
    }
  }

  /** `goals[goalIndex] = null` for the slot found by instance id, if any. */
  function ClearSlot(goals: seq<Option<Card>>, iid: nat): (r: seq<Option<Card>>)
    ensures |r| == |goals|
    ensures GoalSlot(goals, iid).Some? ==> r[GoalSlot(goals, iid).value] == None
    ensures forall k :: 0 <= k < |goals| && Some(k) != GoalSlot(goals, iid) ==> r[k] == goals[k]
  {
    match GoalSlot(goals, iid)
    case None => goals
    case Some(k) => goals[k := None]
  }

  /** The attack is refused: game over, or the attacker already attacked or is frozen. */
  predicate CombatRefused(b: Board, attacker: Card) {
    b.gameIsOver || attacker.hasAttackedThisTurn || !attacker.canAttackNextTurn
  }

  /** The protector rule refuses the target (only Monstre targets are checked). */
  predicate ProtectorBlocks(b: Board, target: Card, owner: Actor) {
    FieldHasProtector(b.Of(Other(owner)).field) && target.kind == Monstre && PROTECTOR !in target.abilities
  }

  /** The selection after an attack attempt: cleared when the player attacked. */
  function ClearedSelection(b: Board, owner: Actor): Option<Card> {
    if owner == Joueur then None else b.selected
  }

  /** `attacker.hasAttackedThisTurn = true`, on the attacker's instance in its field. */
  function Marked(b: Board, attacker: Card, owner: Actor): (r: Board)
    ensures r.Of(Other(owner)) == b.Of(Other(owner))
    ensures r.Of(owner).deck == b.Of(owner).deck && r.Of(owner).hand == b.Of(owner).hand && r.Of(owner).goals == b.Of(owner).goals
    ensures r.selected == b.selected && r.isPlayerTurn == b.isPlayerTurn && r.gameIsOver == b.gameIsOver
    ensures r.turnNumber == b.turnNumber && r.counter == b.counter
  {
    var sa := b.Of(owner);
    b.With(owner, sa.(field := UpdateInstance(sa.field, attacker.instanceId, (c: Card) => c.(hasAttackedThisTurn := true))))
  }

  /** A monster target leaves the defender's field when attack > defense. */
  function StrikeMonster(b: Board, attacker: Card, target: Card, owner: Actor): (r: Board)
    ensures r.Of(owner) == b.Of(owner)
    ensures r.Of(Other(owner)).hand == b.Of(Other(owner)).hand && r.Of(Other(owner)).goals == b.Of(Other(owner)).goals
    ensures r.selected == b.selected && r.isPlayerTurn == b.isPlayerTurn && r.gameIsOver == b.gameIsOver
    ensures r.turnNumber == b.turnNumber
  {
    if attacker.atk > target.def then
      var sd := b.Of(Other(owner));
      b.With(Other(owner), sd.(field := RemoveInstance(sd.field, target.instanceId)))
    else b
  }

  /** A goal target is revealed, its effect applied, then its slot nulled. */
  function StrikeGoal(b: Board, attacker: Card, target: Card, owner: Actor, roll: real, catalog: seq<CardDef>): (r: Board)
    requires 0.0 <= roll < 1.0
    ensures r.Of(owner).goals == b.Of(owner).goals
    ensures r.Of(Other(owner)).goals == ClearSlot(Reveal(b.Of(Other(owner)).goals, target.instanceId), target.instanceId)
    ensures r.selected == b.selected && r.isPlayerTurn == b.isPlayerTurn && r.gameIsOver == b.gameIsOver
    ensures r.turnNumber == b.turnNumber
  {
    var sd := b.Of(Other(owner));
    var revealed := b.With(Other(owner), sd.(goals := Reveal(sd.goals, target.instanceId)));
    var effected := EffectResult(revealed, target, attacker, owner, roll, catalog);
    var se := effected.Of(Other(owner));
    effected.With(Other(owner), se.(goals := ClearSlot(se.goals, target.instanceId)))
  }

  /** The board once targeting passed, before the win check. */
  function Resolve(b: Board, attacker: Card, target: Card, owner: Actor, roll: real, catalog: seq<CardDef>): (r: Board)
    requires 0.0 <= roll < 1.0
    ensures r.isPlayerTurn == b.isPlayerTurn && r.turnNumber == b.turnNumber && r.gameIsOver == b.gameIsOver
    ensures r.selected == ClearedSelection(b, owner)
    ensures r.Of(owner).goals == b.Of(owner).goals
  {
    var marked := Marked(b, attacker, owner);
    var after :=
      if target.kind == Monstre then StrikeMonster(marked, attacker, target, owner)
      else if IsGoalKind(target.kind) then StrikeGoal(marked, attacker, target, owner, roll, catalog)
      else marked;
    after.(selected := ClearedSelection(b, owner))
  }

  /** `executeCombat(attacker, target, attackerOwner)`. */
  function CombatResult(b: Board, attacker: Card, target: Card, owner: Actor, roll: real, catalog: seq<CardDef>): (r: Board)
    requires 0.0 <= roll < 1.0
    // combat never touches the turn or the attacking side's goals, and only clears the player's selection
    ensures r.isPlayerTurn == b.isPlayerTurn && r.turnNumber == b.turnNumber
    ensures r.selected == ClearedSelection(b, owner) && r.Of(owner).goals == b.Of(owner).goals
    // once the game is over, combat changes nothing but the selection
    ensures b.gameIsOver ==> r == b.(selected := ClearedSelection(b, owner))
  {
    if CombatRefused(b, attacker) || ProtectorBlocks(b, target, owner) then b.(selected := ClearedSelection(b, owner))
    else
      var resolved := Resolve(b, attacker, target, owner, roll, catalog);
      resolved.(gameIsOver := WinCheck(resolved.player.goals, resolved.opponent.goals) != Ongoing)
  }

  /** Once the game is over, or the attacker already attacked or is frozen,
      combat changes no zone and no flag (the player's selection is cleared). */
  lemma CombatRefusedChangesNothing(b: Board, attacker: Card, target: Card, owner: Actor, roll: real, catalog: seq<CardDef>)
    requires 0.0 <= roll < 1.0
    requires CombatRefused(b, attacker)
    ensures CombatResult(b, attacker, target, owner, roll, catalog) == b.(selected := ClearedSelection(b, owner))
  {
  }

  /** A defending protector turns away an attack on a non-protector monster
      before the attacker is marked, so it may attack again. */
  lemma ProtectorRuleAborts(b: Board, attacker: Card, target: Card, owner: Actor, roll: real, catalog: seq<CardDef>)
    requires 0.0 <= roll < 1.0
    requires ProtectorBlocks(b, target, owner)
    ensures CombatResult(b, attacker, target, owner, roll, catalog).Of(owner) == b.Of(owner)
    ensures CombatResult(b, attacker, target, owner, roll, catalog).Of(Other(owner)) == b.Of(Other(owner))
  {
  }

  /** A goal card is never turned away by the protector rule. */
  lemma GoalTargetIgnoresProtector(b: Board, target: Card, owner: Actor)
    requires IsGoalKind(target.kind)
    ensures !ProtectorBlocks(b, target, owner)
  {
  }

  /** Monster combat: the attacker is marked as having attacked, the
      defender leaves its field iff attack > defense, and nothing else on
      either field changes. */
  lemma MonsterCombat(b: Board, attacker: Card, target: Card, owner: Actor, roll: real, catalog: seq<CardDef>)
    requires 0.0 <= roll < 1.0
    requires !CombatRefused(b, attacker) && !ProtectorBlocks(b, target, owner)
    requires target.kind == Monstre
    requires target in b.Of(Other(owner)).field
    ensures var r := CombatResult(b, attacker, target, owner, roll, catalog);
      r.Of(owner).field == UpdateInstance(b.Of(owner).field, attacker.instanceId, (c: Card) => c.(hasAttackedThisTurn := true)) &&
      (target.instanceId !in InstanceIds(r.Of(Other(owner)).field) <==> attacker.atk > target.def) &&
      (forall c :: c in b.Of(Other(owner)).field && c.instanceId != target.instanceId ==> c in r.Of(Other(owner)).field) &&
      (forall c :: c in r.Of(Other(owner)).field ==> c in b.Of(Other(owner)).field) &&
      r.Of(owner).hand == b.Of(owner).hand && r.Of(Other(owner)).hand == b.Of(Other(owner)).hand &&
      r.player.goals == b.player.goals && r.opponent.goals == b.opponent.goals
  {
    var sd := b.Of(Other(owner)).field;
    var r := CombatResult(b, attacker, target, owner, roll, catalog);
    if attacker.atk > target.def {
      assert r.Of(Other(owner)).field == RemoveInstance(sd, target.instanceId);
    } else {
      assert r.Of(Other(owner)).field == sd;
      assert target.instanceId in InstanceIds(sd);
    }
  }

  /** The instance ids present in a zone. */
  function InstanceIds(cards: seq<Card>): (ids: set<nat>)
    ensures forall c :: c in cards ==> c.instanceId in ids
    ensures forall i :: i in ids ==> exists c :: c in cards && c.instanceId == i
  {
    set c | c in cards :: c.instanceId
  }

  /** Goal target: exactly the slot holding the target is nulled; the slot
      array keeps its length and every other slot; the attacker's own goals
      are untouched. */
  lemma GoalTargetSlot(b: Board, attacker: Card, target: Card, owner: Actor, roll: real, catalog: seq<CardDef>)
    requires 0.0 <= roll < 1.0
    requires !CombatRefused(b, attacker) && IsGoalKind(target.kind)
    ensures var r := CombatResult(b, attacker, target, owner, roll, catalog);
      var g := b.Of(Other(owner)).goals;
      |r.Of(Other(owner)).goals| == |g| &&
      (GoalSlot(g, target.instanceId).Some? ==> r.Of(Other(owner)).goals[GoalSlot(g, target.instanceId).value] == None) &&
      (forall k :: 0 <= k < |g| && Some(k) != GoalSlot(g, target.instanceId) ==> r.Of(Other(owner)).goals[k] == g[k]) &&
      r.Of(owner).goals == b.Of(owner).goals
  {
    var g := b.Of(Other(owner)).goals;
    assert Marked(b, attacker, owner).Of(Other(owner)).goals == g;
    GoalSlotSameShape(g, Reveal(g, target.instanceId), target.instanceId);
  }

  /** After every resolved combat the game is over iff one side has no goal
      left; a finished game stays finished. */
  lemma CombatWinCheck(b: Board, attacker: Card, target: Card, owner: Actor, roll: real, catalog: seq<CardDef>)
    requires 0.0 <= roll < 1.0
    ensures var r := CombatResult(b, attacker, target, owner, roll, catalog);
      (b.gameIsOver ==> r.gameIsOver) &&
      (!CombatRefused(b, attacker) && !ProtectorBlocks(b, target, owner) ==>
        (r.gameIsOver <==> Remaining(r.opponent.goals) == 0 || Remaining(r.player.goals) == 0))
  {
  }

  // -------------------------------------------------------- turn controller

  /** The untap of `forEach`: hasAttackedThisTurn false, canAttackNextTurn true. */
  function Untapped(c: Card): Card {
    c.(hasAttackedThisTurn := false, canAttackNextTurn := true)
  }

  /** Every card of the field is untapped. */
  predicate AllUntapped(field: seq<Card>) {
    forall k :: 0 <= k < |field| ==> !field[k].hasAttackedThisTurn && field[k].canAttackNextTurn
  }
}
