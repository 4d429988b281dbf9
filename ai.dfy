/** The scripted opponent's decisions (aiLogic.js): whether to draw, which
    card to play, which monsters attack and what each one targets. The
    decisions are pure; the engine carries them out through its own entry
    points (Engine.Match). */
module Ai {
  import opened Cards
  import opened Utils

  const HAND_LIMIT := 7
  const FIELD_LIMIT := 5

  /** `aiDrawCard`: how many times it calls `drawCard('IA')`. */
  function DrawCalls(deckLen: nat, handLen: nat): (n: nat)
    ensures n <= 1
    ensures n == 1 <==> deckLen > 0 && handLen < HAND_LIMIT
  {
    if deckLen > 0 && handLen < HAND_LIMIT then 1 else 0
  }

  /** `hand.find(card => card.type === "Monstre" && card.abilities.includes("PROTECTOR"))`, as an index. */
  function FirstProtectorIndex(hand: seq<Card>): (r: Option<nat>)
    ensures r.None? <==> forall k :: 0 <= k < |hand| ==> !IsProtector(hand[k])
    ensures r.Some? ==> r.value < |hand| && IsProtector(hand[r.value])
    ensures r.Some? ==> forall k :: 0 <= k < r.value ==> !IsProtector(hand[k])
  {
    if |hand| == 0 then None
    else if IsProtector(hand[0]) then Some(0)
    else match FirstProtectorIndex(hand[1..])
      case None => None
      case Some(k) => Some(k + 1)
  }

  /** The first element of the hand's monsters after the stable sort by
      descending atk: the first monster, in hand order, of maximal atk. */
  function BestMonsterIndex(hand: seq<Card>): (r: Option<nat>)
    ensures r.None? <==> forall k :: 0 <= k < |hand| ==> hand[k].kind != Monstre
    ensures r.Some? ==> r.value < |hand| && hand[r.value].kind == Monstre
    ensures r.Some? ==> forall k :: 0 <= k < |hand| && hand[k].kind == Monstre ==> hand[k].atk <= hand[r.value].atk
    ensures r.Some? ==> forall k :: 0 <= k < r.value && hand[k].kind == Monstre ==> hand[k].atk < hand[r.value].atk
  {
    if |hand| == 0 then None
    else
      var rest := BestMonsterIndex(hand[1..]);
      if hand[0].kind == Monstre && (rest.None? || hand[0].atk >= hand[1..][rest.value].atk) then Some(0)
      else if rest.None? then None
      else Some(rest.value + 1)
  }

  /** `aiPlayCard`: the card whose instance id is passed to `playCard`, if any. */
  function ChooseCardToPlay(hand: seq<Card>, field: seq<Card>): (r: Option<Card>)
    // no call with an empty hand or a full field
    ensures |hand| == 0 || |field| >= FIELD_LIMIT ==> r.None?
    // whatever is chosen is a monster of the hand
    ensures r.Some? ==> r.value in hand && r.value.kind == Monstre
    ensures |hand| > 0 && |field| < FIELD_LIMIT ==>
      (r.None? <==> forall k :: 0 <= k < |hand| ==> hand[k].kind != Monstre)
    // priority 1: no protector on the field, a protector in hand -> the first one
    ensures |hand| > 0 && |field| < FIELD_LIMIT && !FieldHasProtector(field) && (exists k :: 0 <= k < |hand| && IsProtector(hand[k])) ==>
      exists i :: 0 <= i < |hand| && r == Some(hand[i]) && IsProtector(hand[i]) &&
        forall k :: 0 <= k < i ==> !IsProtector(hand[k])
    // priority 2: otherwise the first monster of maximal atk
    ensures (FieldHasProtector(field) || forall k :: 0 <= k < |hand| ==> !IsProtector(hand[k])) && r.Some? ==>
      exists i :: 0 <= i < |hand| && r == Some(hand[i]) &&
        (forall k :: 0 <= k < |hand| && hand[k].kind == Monstre ==> hand[k].atk <= hand[i].atk) &&
        (forall k :: 0 <= k < i && hand[k].kind == Monstre ==> hand[k].atk < hand[i].atk)
  {
    if |hand| > 0 && |field| < FIELD_LIMIT then
      var protector := if !FieldHasProtector(field) then FirstProtectorIndex(hand) else None;
      if protector.Some? then Some(hand[protector.value])
      else match BestMonsterIndex(hand)
        case None => None
        case Some(i) => Some(hand[i])
    else None
  }

  /** A monster that may attack: untapped and not frozen. */
  predicate CanAttack(c: Card) {
    c.kind == Monstre && !c.hasAttackedThisTurn && c.canAttackNextTurn
  }

  /** The attacker list of `aiPerformAttacks`, fixed before its loop. */
  function Attackers(field: seq<Card>): (r: seq<Card>)
    ensures |r| <= |field|
    ensures forall c :: c in r <==> c in field && CanAttack(c)
    ensures (forall k :: 0 <= k < |field| ==> CanAttack(field[k])) ==> r == field
    ensures |field| == 0 ==> r == []
    ensures |field| == 1 ==> r == if CanAttack(field[0]) then field else []
  {
    if |field| == 0 then []
    else (if CanAttack(field[0]) then [field[0]] else []) + Attackers(field[1..])
  }

  /** The filter keeps field order: the attackers of a concatenation are the
      attackers of the first part followed by those of the second. */
  lemma {:induction false} AttackersAppend(a: seq<Card>, b: seq<Card>)
    ensures Attackers(a + b) == Attackers(a) + Attackers(b)
    decreases |a|
  {
    if |a| > 0 {
      assert (a + b)[1..] == a[1..] + b;
      AttackersAppend(a[1..], b);
    } else {
      assert a + b == b;
    }
  }

  /** The monsters a target is chosen among: protectors only, or every monster. */
  predicate Candidate(c: Card, protectorsOnly: bool) {
    c.kind == Monstre && (!protectorsOnly || IsProtector(c))
  }

  /** The first element after the stable sort by ascending def of the
      candidates: the first candidate, in field order, of minimal def. */
  function FirstMinDefIndex(field: seq<Card>, protectorsOnly: bool): (r: Option<nat>)
    ensures r.None? <==> forall k :: 0 <= k < |field| ==> !Candidate(field[k], protectorsOnly)
    ensures r.Some? ==> r.value < |field| && Candidate(field[r.value], protectorsOnly)
    ensures r.Some? ==> forall k :: 0 <= k < |field| && Candidate(field[k], protectorsOnly) ==> field[r.value].def <= field[k].def
    ensures r.Some? ==> forall k :: 0 <= k < r.value && Candidate(field[k], protectorsOnly) ==> field[r.value].def < field[k].def
  {
    if |field| == 0 then None
    else
      var rest := FirstMinDefIndex(field[1..], protectorsOnly);
      if Candidate(field[0], protectorsOnly) && (rest.None? || field[0].def <= field[1..][rest.value].def) then Some(0)
      else if rest.None? then None
      else Some(rest.value + 1)
  }

  /** `playerGoalCards.filter(gc => gc && !gc.isRevealed)`. */
  function UnrevealedGoals(goals: seq<Option<Card>>): (r: seq<Card>)
    ensures |r| <= |goals|
    ensures forall c :: c in r <==> Some(c) in goals && !c.isRevealed
  {
    if |goals| == 0 then []
    else (if goals[0].Some? && !goals[0].value.isRevealed then [goals[0].value] else []) + UnrevealedGoals(goals[1..])
  }

  /** The target one attacker of `aiPerformAttacks` picks, seen through the
      player field and goal array the opponent holds; `roll` is the
      `Math.random()` used to pick a goal. */
  function ChooseTarget(playerField: seq<Card>, playerGoals: seq<Option<Card>>, roll: real): (r: Option<Card>)
    requires 0.0 <= roll < 1.0
    // (a) the player has a protector: the protector of least def, first on ties
    ensures FieldHasProtector(playerField) ==>
      exists i :: 0 <= i < |playerField| && r == Some(playerField[i]) && IsProtector(playerField[i]) &&
        (forall k :: 0 <= k < |playerField| && IsProtector(playerField[k]) ==> playerField[i].def <= playerField[k].def) &&
        (forall k :: 0 <= k < i && IsProtector(playerField[k]) ==> playerField[i].def < playerField[k].def)
    // (b) otherwise a goal card still face down, if there is one
    ensures !FieldHasProtector(playerField) && UnrevealedGoals(playerGoals) != [] ==>
      r.Some? && Some(r.value) in playerGoals && !r.value.isRevealed
    // (c) otherwise the monster of least def, first on ties; (d) nothing
    ensures !FieldHasProtector(playerField) && UnrevealedGoals(playerGoals) == [] ==>
      (r.None? <==> forall k :: 0 <= k < |playerField| ==> playerField[k].kind != Monstre) &&
      (r.Some? ==>
        exists i :: 0 <= i < |playerField| && r == Some(playerField[i]) && playerField[i].kind == Monstre &&
          (forall k :: 0 <= k < |playerField| && playerField[k].kind == Monstre ==> playerField[i].def <= playerField[k].def) &&
          (forall k :: 0 <= k < i && playerField[k].kind == Monstre ==> playerField[i].def < playerField[k].def))
  {
    if FieldHasProtector(playerField) then
      match FirstMinDefIndex(playerField, true)
      case None => None
      case Some(i) => Some(playerField[i])
    else
      var availableGoals := UnrevealedGoals(playerGoals);
      if |availableGoals| > 0 then Some(availableGoals[RandomIndex(roll, |availableGoals|)])
      else if |playerField| > 0 then
        match FirstMinDefIndex(playerField, false)
        case None => None
        case Some(i) => Some(playerField[i])
      else None
  }

  /** Under rule (a) the target is never a non-protector, so the engine's
      protector check always lets the opponent's attack through. */
  lemma TargetRespectsProtector(playerField: seq<Card>, playerGoals: seq<Option<Card>>, roll: real)
    requires 0.0 <= roll < 1.0
    requires FieldHasProtector(playerField)
    ensures ChooseTarget(playerField, playerGoals, roll).Some?
    ensures IsProtector(ChooseTarget(playerField, playerGoals, roll).value)
  {
  }
}
