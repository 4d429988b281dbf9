/** Card definitions (the catalog entries of cards.json) and card instances
    (one mutable copy of a definition in a zone). */
module Cards {

  datatype Option<T> = None | Some(value: T)

  /** The `type` field of a card. Only "Monstre", "Magie" and "Piege" are
      read by the rules; anything else is `OtherKind`. */
  datatype Kind = Monstre | Magie | Piege | OtherKind

  const PROTECTOR := "PROTECTOR"

  /** A catalog entry. A missing `atk`/`def` is read as 0. Display-only
      fields (description, rarity, image) are not modelled. */
  datatype CardDef = CardDef(
    id: string,
    name: string,
    kind: Kind,
    atk: int,
    def: int,
    abilities: seq<string>,
    effectOnDestroy: string)

  /** A card instance: every definition field copied, plus the instance id
      (`inst-N` is represented by N) and the three runtime flags. */
  datatype Card = Card(
    id: string,
    name: string,
    kind: Kind,
    atk: int,
    def: int,
    abilities: seq<string>,
    effectOnDestroy: string,
    instanceId: nat,
    hasAttackedThisTurn: bool,
    isRevealed: bool,
    canAttackNextTurn: bool)

  /** A Monstre whose abilities include PROTECTOR. */
  predicate IsProtector(c: Card) {
    c.kind == Monstre && PROTECTOR in c.abilities
  }

  /** A goal-eligible card: Magie or Piege. */
  predicate IsGoalKind(k: Kind) {
    k == Magie || k == Piege
  }

  /** The instance built from definition `d` with instance number `n`. */
  function Instantiate(d: CardDef, n: nat): (c: Card)
    ensures c.id == d.id && c.name == d.name && c.kind == d.kind
    ensures c.atk == d.atk && c.def == d.def && c.abilities == d.abilities
    ensures c.effectOnDestroy == d.effectOnDestroy && c.instanceId == n
    ensures !c.hasAttackedThisTurn && !c.isRevealed && c.canAttackNextTurn
  {
    Card(d.id, d.name, d.kind, d.atk, d.def, d.abilities, d.effectOnDestroy, n, false, false, true)
  }

  /** Index of the first card with instance id `iid`, as `findIndex` does. */
  function FindIndex(cards: seq<Card>, iid: nat): (r: Option<nat>)
    ensures r.None? <==> forall k :: 0 <= k < |cards| ==> cards[k].instanceId != iid
    ensures r.Some? ==> r.value < |cards| && cards[r.value].instanceId == iid
    ensures r.Some? ==> forall k :: 0 <= k < r.value ==> cards[k].instanceId != iid
  {
    if |cards| == 0 then None
    else if cards[0].instanceId == iid then Some(0)
    else match FindIndex(cards[1..], iid)
      case None => None
      case Some(k) => Some(k + 1)
  }

  /** `cards.filter(c => c.instanceId !== iid)`. */
  function RemoveInstance(cards: seq<Card>, iid: nat): (r: seq<Card>)
    ensures |r| <= |cards|
    ensures forall c :: c in r <==> c in cards && c.instanceId != iid
    ensures (forall k :: 0 <= k < |cards| ==> cards[k].instanceId != iid) ==> r == cards
    ensures forall k :: 0 <= k < |cards| && cards[k].instanceId == iid ==> |r| < |cards|
  {
    if |cards| == 0 then []
    else if cards[0].instanceId == iid then RemoveInstance(cards[1..], iid)
    else [cards[0]] + RemoveInstance(cards[1..], iid)
  }

  /** The filter works card by card: it keeps the order of the cards it
      keeps, so filtering a concatenation filters each part. */
  lemma {:induction false} RemoveInstanceAppend(a: seq<Card>, b: seq<Card>, iid: nat)
    ensures RemoveInstance(a + b, iid) == RemoveInstance(a, iid) + RemoveInstance(b, iid)
    decreases |a|
  {
    if |a| > 0 {
      assert (a + b)[1..] == a[1..] + b;
      RemoveInstanceAppend(a[1..], b, iid);
    } else {
      assert a + b == b;
    }
  }

  /** When the instance id occurs once, at position `k`, the filter removes
      exactly that card and keeps the others in their order. */
  lemma RemoveInstanceUnique(cards: seq<Card>, iid: nat, k: nat)
    requires k < |cards| && cards[k].instanceId == iid
    requires forall j :: 0 <= j < |cards| && j != k ==> cards[j].instanceId != iid
    ensures RemoveInstance(cards, iid) == cards[..k] + cards[k + 1..]
  {
    assert cards == cards[..k] + ([cards[k]] + cards[k + 1..]);
    RemoveInstanceAppend(cards[..k], [cards[k]] + cards[k + 1..], iid);
    RemoveInstanceAppend([cards[k]], cards[k + 1..], iid);
    assert RemoveInstance(cards[..k], iid) == cards[..k];
    assert RemoveInstance(cards[k + 1..], iid) == cards[k + 1..];
    assert RemoveInstance([cards[k]], iid) == [];
  }

  /** Applies `f` to the first card with instance id `iid`, leaving every
      other card as it is: the update of one mutable instance found by `find`. */
  function UpdateInstance(cards: seq<Card>, iid: nat, f: Card -> Card): (r: seq<Card>)
    ensures |r| == |cards|
    ensures forall k :: 0 <= k < |cards| && cards[k].instanceId != iid ==> r[k] == cards[k]
    ensures forall k :: (0 <= k < |cards| && cards[k].instanceId == iid &&
      forall j :: 0 <= j < k ==> cards[j].instanceId != iid) ==> r[k] == f(cards[k])
    ensures forall k :: (0 <= k < |cards| && cards[k].instanceId == iid &&
      exists j :: 0 <= j < k && cards[j].instanceId == iid) ==> r[k] == cards[k]
  {
    match FindIndex(cards, iid)
    case None => cards
    case Some(k) => cards[k := f(cards[k])]
  }
}
