/** The card catalog and the instance factory: `createCardInstance` with its
    module-level `instanceIdCounter`, the default deck and the goal cards. */
module CardManager {
  import opened Cards
  import opened Utils

  /** `allCards.find(c => c.id === id)`. */
  function Find(catalog: seq<CardDef>, id: string): (r: Option<CardDef>)
    ensures r.None? <==> forall d :: d in catalog ==> d.id != id
    ensures r.Some? ==> r.value in catalog && r.value.id == id
  {
    if |catalog| == 0 then None
    else if catalog[0].id == id then Some(catalog[0])
    else Find(catalog[1..], id)
  }

  /** Catalog ids are pairwise distinct (as in cards.json). */
  predicate UniqueIds(catalog: seq<CardDef>) {
    forall i, j :: 0 <= i < j < |catalog| ==> catalog[i].id != catalog[j].id
  }

  /** With distinct ids, looking up the id of a catalog entry yields that entry. */
  lemma {:induction false} FindUnique(catalog: seq<CardDef>, d: CardDef)
    requires UniqueIds(catalog) && d in catalog
    ensures Find(catalog, d.id) == Some(d)
  {
    if catalog[0] != d {
      assert catalog[0].id != d.id by {
        var j :| 0 <= j < |catalog| && catalog[j] == d;
        assert j > 0;
      }
      assert UniqueIds(catalog[1..]) by {
        forall i, j | 0 <= i < j < |catalog| - 1
          ensures catalog[1..][i].id != catalog[1..][j].id
        {
          assert catalog[1..][i] == catalog[i + 1] && catalog[1..][j] == catalog[j + 1];
        }
      }
      FindUnique(catalog[1..], d);
    }
  }

  /** `allCards.filter(card => card.type === "Monstre")`. */
  function Monsters(catalog: seq<CardDef>): (r: seq<CardDef>)
    ensures forall d :: d in r <==> d in catalog && d.kind == Monstre
  {
    if |catalog| == 0 then []
    else (if catalog[0].kind == Monstre then [catalog[0]] else []) + Monsters(catalog[1..])
  }

  /** `allCards.filter(card => card.type === "Magie" || card.type === "Piege")`. */
  function SpellTraps(catalog: seq<CardDef>): (r: seq<CardDef>)
    ensures forall d :: d in r <==> d in catalog && IsGoalKind(d.kind)
  {
    if |catalog| == 0 then []
    else (if IsGoalKind(catalog[0].kind) then [catalog[0]] else []) + SpellTraps(catalog[1..])
  }

  /** The default deck before shuffling: entry i is the id of monster i mod n. */
  function CyclicFill(monsters: seq<CardDef>, size: nat): (r: seq<string>)
    requires |monsters| > 0
  {
    seq(size, i requires 0 <= i < size => monsters[i % |monsters|].id)
  }

  /** `c` is an instance built, under its own instance number, from the
      catalog entry found for the id of a Magie or Piege definition. */
  ghost predicate GoalInstance(catalog: seq<CardDef>, c: Card) {
    (exists d :: d in SpellTraps(catalog) && d.id == c.id)
    && Find(catalog, c.id).Some?
    && c == Instantiate(Find(catalog, c.id).value, c.instanceId)
  }

  /** With distinct catalog ids, every goal instance is a Magie or Piege card. */
  lemma GoalInstanceIsSpellTrap(catalog: seq<CardDef>, c: Card)
    requires UniqueIds(catalog) && GoalInstance(catalog, c)
    ensures IsGoalKind(c.kind)
  {
    var d :| d in SpellTraps(catalog) && d.id == c.id;
    FindUnique(catalog, d);
  }

  class Manager {
    /** The loaded catalog (`allCards`); loading it is not modelled. */
    const allCards: seq<CardDef>
    var instanceIdCounter: nat

    constructor (catalog: seq<CardDef>)
      ensures allCards == catalog && instanceIdCounter == 0
    {
      allCards := catalog;
      instanceIdCounter := 0;
    }

    /** `createCardInstance`: an unknown id yields null and leaves the
        counter alone; otherwise the counter goes up by one and the new
        instance carries it as its id. */
    method CreateCardInstance(id: string) returns (r: Option<Card>)
      modifies this`instanceIdCounter
      ensures Find(allCards, id).None? ==> r.None? && instanceIdCounter == old(instanceIdCounter)
      ensures Find(allCards, id).Some? ==>
        instanceIdCounter == old(instanceIdCounter) + 1 &&
        r == Some(Instantiate(Find(allCards, id).value, instanceIdCounter))
    {
      var data := Find(allCards, id);
      if data.None? {
        return None;
      }
      instanceIdCounter := instanceIdCounter + 1;
      r := Some(Instantiate(data.value, instanceIdCounter));
    }

    /** `initializeDeck(deckArray, deckSize)`, returning the new contents of
        the caller's array: unchanged when nothing is loaded, emptied when the
        catalog has no Monstre, otherwise `deckSize` monster ids filled
        cyclically and then shuffled. */
    method InitializeDeck(deck: seq<string>, deckSize: nat, rolls: seq<real>) returns (r: seq<string>)
      requires ValidRolls(rolls) && |rolls| >= deckSize - 1
      ensures |allCards| == 0 ==> r == deck
      ensures |allCards| > 0 && Monsters(allCards) == [] ==> r == []
      ensures |allCards| > 0 && Monsters(allCards) != [] ==>
        |r| == deckSize && multiset(r) == multiset(CyclicFill(Monsters(allCards), deckSize))
      ensures |allCards| > 0 ==> forall id :: id in r ==> exists d :: d in allCards && d.kind == Monstre && d.id == id
    {
      if |allCards| == 0 {
        return deck;
      }
      var monsterCards := Monsters(allCards);
      if |monsterCards| == 0 {
        return [];
      }
      var a := new string[deckSize];
      for i := 0 to deckSize
        invariant a[..i] == CyclicFill(monsterCards, deckSize)[..i]
      {
        a[i] := monsterCards[i % |monsterCards|].id;
      }
      ghost var filled := a[..];
      assert filled == CyclicFill(monsterCards, deckSize);
      ShuffleDeck(a, rolls);
      r := a[..];
      ShufflePermutation(filled, |filled| - 1, rolls);
      forall id | id in r
        ensures exists d :: d in allCards && d.kind == Monstre && d.id == id
      {
        assert id in multiset(filled);
        var i :| 0 <= i < |filled| && filled[i] == id;
        assert monsterCards[i % |monsterCards|] in monsterCards;
      }
    }

    /** `initializeGoalCards(goalCardArray)`, returning the new contents of
        the caller's array: unchanged when nothing is loaded, four nulls when
        the catalog has no Magie/Piege, otherwise four instances of
        Magie/Piege cards taken cyclically from a shuffled copy. */
    method InitializeGoalCards(goals: seq<Option<Card>>, rolls: seq<real>) returns (r: seq<Option<Card>>)
      requires ValidRolls(rolls) && |rolls| >= |SpellTraps(allCards)| - 1
      modifies this`instanceIdCounter
      ensures |allCards| == 0 ==> r == goals && instanceIdCounter == old(instanceIdCounter)
      ensures |allCards| > 0 ==> |r| == 4
      ensures |allCards| > 0 && SpellTraps(allCards) == [] ==>
        r == [None, None, None, None] && instanceIdCounter == old(instanceIdCounter)
      ensures |allCards| > 0 && SpellTraps(allCards) != [] ==>
        instanceIdCounter == old(instanceIdCounter) + 4 &&
        forall k :: 0 <= k < |r| ==>
          r[k].Some? && r[k].value.instanceId == old(instanceIdCounter) + k + 1 &&
          GoalInstance(allCards, r[k].value)
    {
      if |allCards| == 0 {
        return goals;
      }
      var spellTrapCards := SpellTraps(allCards);
      if |spellTrapCards| == 0 {
        return [None, None, None, None];
      }
      var shuffled := ShuffledSpellTraps(spellTrapCards, rolls);
      forall d | d in shuffled
        ensures d in spellTrapCards
      {
        assert d in multiset(shuffled);
      }
      r := DealGoals(shuffled);
    }

    /** `[...spellTrapCards]` followed by `shuffleDeck` on the copy. */
    static method ShuffledSpellTraps(spellTrapCards: seq<CardDef>, rolls: seq<real>) returns (shuffled: seq<CardDef>)
      requires ValidRolls(rolls) && |rolls| >= |spellTrapCards| - 1
      ensures |shuffled| == |spellTrapCards| && multiset(shuffled) == multiset(spellTrapCards)
    {
      var a := new CardDef[|spellTrapCards|](k requires 0 <= k < |spellTrapCards| => spellTrapCards[k]);
      assert a[..] == spellTrapCards;
      ShuffleDeck(a, rolls);
      ShufflePermutation(spellTrapCards, |spellTrapCards| - 1, rolls);
      shuffled := a[..];
    }

    /** The `for` loop of `initializeGoalCards`: four instances taken
        cyclically from the shuffled Magie/Piege definitions. */
    method DealGoals(shuffled: seq<CardDef>) returns (r: seq<Option<Card>>)
      requires |shuffled| > 0 && forall d | d in shuffled :: d in SpellTraps(allCards)
      modifies this`instanceIdCounter
      ensures |r| == 4 && instanceIdCounter == old(instanceIdCounter) + 4
      ensures forall k :: 0 <= k < |r| ==>
        r[k].Some? && r[k].value.instanceId == old(instanceIdCounter) + k + 1 &&
        GoalInstance(allCards, r[k].value)
    {
      r := [];
      for i := 0 to 4
        invariant |r| == i
        invariant instanceIdCounter == old(instanceIdCounter) + i
        invariant forall k :: 0 <= k < i ==>
          r[k].Some? && r[k].value.instanceId == old(instanceIdCounter) + k + 1 &&
          GoalInstance(allCards, r[k].value)
      {
        var cardData := shuffled[i % |shuffled|];
        var cardInstance := CreateCardInstance(cardData.id);
        assert cardInstance.Some? && GoalInstance(allCards, cardInstance.value);
        r := r + [cardInstance];
      }
    }
  }
}
