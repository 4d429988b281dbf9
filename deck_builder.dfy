/** The deck editor of deckBuilder.js: the collection of owned cards, the
    custom deck with its size and copy limits, and the automatic deck
    construction. */
module DeckBuilder {
  import opened Cards
  import opened CardManager

  const MAX_DECK_SIZE := 40
  const MIN_DECK_SIZE := 20
  const MAX_COPIES_PER_CARD := 3
  const FAILSAFE_ROUNDS := 50

  function Min(x: int, y: int): int {
    if x <= y then x else y
  }

  /** `deck.filter(id => id === cardId).length`. */
  function Copies(deck: seq<string>, id: string): nat {
    multiset(deck)[id]
  }

  /** `userCollection[cardId] || 0`. */
  function Owned(collection: map<string, int>, id: string): int {
    if id in collection then collection[id] else 0
  }

  // ------------------------------------------------------------ collection

  /** `addToUserCollection(cardId, quantity)` on the collection value. */
  function Collected(collection: map<string, int>, id: string, quantity: int): (r: map<string, int>)
    ensures r.Keys == collection.Keys + {id}
  {
    collection[id := Owned(collection, id) + quantity]
  }

  /** Adding to the collection raises the count of that id by `quantity`
      and leaves every other count alone. */
  lemma CollectedCounts(collection: map<string, int>, id: string, quantity: int, other: string)
    ensures Owned(Collected(collection, id, quantity), id) == Owned(collection, id) + quantity
    ensures other != id ==> Owned(Collected(collection, id, quantity), other) == Owned(collection, other)
  {
  }

  // ------------------------------------------------------------ deck edits

  /** A deck the editor can produce: at most 40 cards, and per id at most 3
      copies and no more copies than the collection holds. */
  predicate DeckOk(deck: seq<string>, collection: map<string, int>) {
    |deck| <= MAX_DECK_SIZE &&
    forall id | id in multiset(deck) :: Copies(deck, id) <= MAX_COPIES_PER_CARD && Copies(deck, id) <= Owned(collection, id)
  }

  /** `addCardToDeck(cardId)` on the deck value, with `owned` the collection count. */
  function AddCard(deck: seq<string>, id: string, owned: int): (r: seq<string>)
    ensures |deck| >= MAX_DECK_SIZE ==> r == deck
    ensures Copies(deck, id) >= MAX_COPIES_PER_CARD || Copies(deck, id) >= owned ==> r == deck
    ensures |deck| < MAX_DECK_SIZE && Copies(deck, id) < MAX_COPIES_PER_CARD && Copies(deck, id) < owned ==> r == deck + [id]
  {
    if |deck| >= MAX_DECK_SIZE then deck
    else if Copies(deck, id) >= MAX_COPIES_PER_CARD then deck
    else if Copies(deck, id) >= owned then deck
    else deck + [id]
  }

  /** Adding a card keeps a valid deck valid. */
  lemma AddCardKeepsDeckOk(deck: seq<string>, collection: map<string, int>, id: string)
    requires DeckOk(deck, collection)
    ensures DeckOk(AddCard(deck, id, Owned(collection, id)), collection)
  {
    var r := AddCard(deck, id, Owned(collection, id));
    if r != deck {
      forall other | other in multiset(r)
        ensures Copies(r, other) <= MAX_COPIES_PER_CARD && Copies(r, other) <= Owned(collection, other)
      {
        assert multiset(r) == multiset(deck) + multiset{id};
        if other != id {
          assert Copies(r, other) == Copies(deck, other);
        }
      }
    }
  }

  /** `userDeck.findIndex(id => id === cardId)`, as an option. */
  function FirstIndex(deck: seq<string>, id: string): (r: Option<nat>)
    ensures r.None? <==> id !in deck
    ensures r.Some? ==> r.value < |deck| && deck[r.value] == id && id !in deck[..r.value]
  {
    if |deck| == 0 then None
    else if deck[0] == id then Some(0)
    else match FirstIndex(deck[1..], id)
      case None => None
      case Some(k) =>
        assert deck[..k + 1] == [deck[0]] + deck[1..][..k];
        Some(k + 1)
  }

  /** `removeCardFromDeck(cardId)` on the deck value: splice out the first occurrence. */
  function RemoveFirst(deck: seq<string>, id: string): (r: seq<string>)
    ensures id !in deck ==> r == deck
    ensures id in deck ==>
      exists i :: 0 <= i < |deck| && deck[i] == id && id !in deck[..i] && r == deck[..i] + deck[i + 1..]
  {
    match FirstIndex(deck, id)
    case None => deck
    case Some(i) => deck[..i] + deck[i + 1..]
  }

  /** Removing takes away exactly one copy of a present id. */
  lemma RemoveFirstCounts(deck: seq<string>, id: string)
    ensures multiset(RemoveFirst(deck, id)) == multiset(deck) - multiset{id}
    ensures |RemoveFirst(deck, id)| == if id in deck then |deck| - 1 else |deck|
  {
    match FirstIndex(deck, id)
    case None =>
    case Some(i) =>
      var front, back := deck[..i], deck[i + 1..];
      assert deck == front + [id] + back;
      assert RemoveFirst(deck, id) == front + back;
  }

  /** Removing a card keeps a valid deck valid. */
  lemma RemoveKeepsDeckOk(deck: seq<string>, collection: map<string, int>, id: string)
    requires DeckOk(deck, collection)
    ensures DeckOk(RemoveFirst(deck, id), collection)
  {
    var r := RemoveFirst(deck, id);
    RemoveFirstCounts(deck, id);
    forall other | other in multiset(r)
      ensures Copies(r, other) <= MAX_COPIES_PER_CARD && Copies(r, other) <= Owned(collection, other)
    {
      assert Copies(r, other) <= Copies(deck, other);
    }
  }

  /** `saveUserDeck`'s validation. */
  predicate SaveAccepted(deck: seq<string>) {
    MIN_DECK_SIZE <= |deck| <= MAX_DECK_SIZE
  }

  // ------------------------------------------------------------- auto fill

  /** An entry of `availableCards`. */
  datatype Entry = Entry(id: string, countInCollection: int, isProtector: bool, atk: int)

  /** The entry pushed for one collection key, if any: an owned Monstre of the catalog. */
  function EntryFor(catalog: seq<CardDef>, collection: map<string, int>, id: string): (r: Option<Entry>)
    ensures r.Some? ==>
      r.value.id == id && id in collection && r.value.countInCollection == collection[id] > 0 &&
      Find(catalog, id).Some? && Find(catalog, id).value.kind == Monstre
    // every owned Monstre of the catalog gives an entry, flagged and valued from its definition
    ensures Owned(collection, id) > 0 && Find(catalog, id).Some? && Find(catalog, id).value.kind == Monstre ==>
      r.Some? && r.value.isProtector == (PROTECTOR in Find(catalog, id).value.abilities) &&
      r.value.atk == Find(catalog, id).value.atk
  {
    var count := Owned(collection, id);
    if count > 0 then
      match Find(catalog, id)
      case Some(d) =>
        if d.kind == Monstre then Some(Entry(id, count, PROTECTOR in d.abilities, d.atk)) else None
      case None => None
    else None
  }

  /** `availableCards` built over the collection keys in `keys` order. */
  function Available(catalog: seq<CardDef>, collection: map<string, int>, keys: seq<string>): (r: seq<Entry>)
    ensures |r| <= |keys|
    ensures forall e | e in r :: e.id in keys && EntryFor(catalog, collection, e.id) == Some(e)
    // every key with an entry contributes it
    ensures forall k | 0 <= k < |keys| && EntryFor(catalog, collection, keys[k]).Some? ::
      EntryFor(catalog, collection, keys[k]).value in r
  {
    if |keys| == 0 then []
    else
      var last := keys[|keys| - 1];
      Available(catalog, collection, keys[..|keys| - 1]) +
        (match EntryFor(catalog, collection, last) case Some(e) => [e] case None => [])
  }

  /** The entries follow the key order: the entries of a concatenation of
      key lists are those of the first list followed by those of the second. */
  lemma {:induction false} AvailableAppend(catalog: seq<CardDef>, collection: map<string, int>, front: seq<string>, back: seq<string>)
    ensures Available(catalog, collection, front + back) ==
      Available(catalog, collection, front) + Available(catalog, collection, back)
    decreases |back|
  {
    if |back| == 0 {
      assert front + back == front;
    } else {
      var keys := front + back;
      var init := back[..|back| - 1];
      assert keys[..|keys| - 1] == front + init;
      assert keys[|keys| - 1] == back[|back| - 1];
      AvailableAppend(catalog, collection, front, init);
    }
  }

  /** No two entries share an id. */
  predicate DistinctIds(s: seq<Entry>) {
    forall i, j :: 0 <= i < j < |s| ==> s[i].id != s[j].id
  }

  predicate Distinct(keys: seq<string>) {
    forall i, j :: 0 <= i < j < |keys| ==> keys[i] != keys[j]
  }

  lemma {:induction false} AvailableDistinct(catalog: seq<CardDef>, collection: map<string, int>, keys: seq<string>)
    requires Distinct(keys)
    ensures DistinctIds(Available(catalog, collection, keys))
    decreases |keys|
  {
    if |keys| > 0 {
      var front := keys[..|keys| - 1];
      assert Distinct(front);
      AvailableDistinct(catalog, collection, front);
      var last := keys[|keys| - 1];
      forall e | e in Available(catalog, collection, front)
        ensures e.id != last
      {
        assert e.id in front;
      }
    }
  }

  /** `entries.filter(c => c.isProtector == protectors)`. */
  function Filter(s: seq<Entry>, protectors: bool): (r: seq<Entry>)
    ensures forall e :: e in r <==> e in s && e.isProtector == protectors
    ensures DistinctIds(s) ==> DistinctIds(r)
  {
    if |s| == 0 then []
    else
      var rest := Filter(s[1..], protectors);
      assert DistinctIds(s) ==> forall e | e in rest :: e.id != s[0].id by {
        if DistinctIds(s) {
          forall e | e in rest ensures e.id != s[0].id {
            var k :| 1 <= k < |s| && s[k] == e;
          }
        }
      }
      if s[0].isProtector == protectors then [s[0]] + rest else rest
  }

  /** The atk order of `sort((a, b) => b.atk - a.atk)`. */
  predicate SortedDesc(s: seq<Entry>) {
    forall i, j :: 0 <= i < j < |s| ==> s[i].atk >= s[j].atk
  }

  /** One step of the stable sort: `x`, which came before every entry of
      `t`, goes in front of the entries of equal atk. */
  function Insert(x: Entry, t: seq<Entry>): (r: seq<Entry>)
    ensures multiset(r) == multiset(t) + multiset{x}
    ensures |r| == |t| + 1
  {
    if |t| == 0 || x.atk >= t[0].atk then [x] + t
    else
      assert t == [t[0]] + t[1..];
      [t[0]] + Insert(x, t[1..])
  }

  /** Inserting into a list sorted by descending atk keeps it sorted. */
  lemma {:induction false} InsertSorted(x: Entry, t: seq<Entry>)
    requires SortedDesc(t)
    ensures SortedDesc(Insert(x, t))
  {
    if !(|t| == 0 || x.atk >= t[0].atk) {
      var rest := Insert(x, t[1..]);
      InsertSorted(x, t[1..]);
      forall e | e in rest ensures e.atk <= t[0].atk {
        assert e in multiset(rest);
        if e != x {
          assert e in multiset(t[1..]);
        }
      }
    }
  }

  /** The stable sort by descending atk. */
  function SortDesc(s: seq<Entry>): (r: seq<Entry>)
  {
    if |s| == 0 then [] else Insert(s[0], SortDesc(s[1..]))
  }

  /** The sort is ordered by descending atk and a permutation of its input. */
  lemma {:induction false} SortDescSorted(s: seq<Entry>)
    ensures SortedDesc(SortDesc(s))
    ensures multiset(SortDesc(s)) == multiset(s) && |SortDesc(s)| == |s|
  {
    if |s| > 0 {
      SortDescSorted(s[1..]);
      var t := SortDesc(s[1..]);
      InsertSorted(s[0], t);
      SortDescStep(s, t);
    }
  }

  /** The multiset and length of one sort step. */
  lemma SortDescStep(s: seq<Entry>, t: seq<Entry>)
    requires |s| > 0 && t == SortDesc(s[1..])
    requires multiset(t) == multiset(s[1..]) && |t| == |s| - 1
    ensures multiset(SortDesc(s)) == multiset(s) && |SortDesc(s)| == |s|
  {
    assert SortDesc(s) == Insert(s[0], t);
    assert s == [s[0]] + s[1..];
  }

  /** Distinct ids survive the sort. */
  lemma {:induction false} SortDescDistinct(s: seq<Entry>)
    requires DistinctIds(s)
    ensures DistinctIds(SortDesc(s))
  {
    if |s| > 0 {
      var t := SortDesc(s[1..]);
      SortDescDistinct(s[1..]);
      SortDescSorted(s[1..]);
      forall e | e in t ensures e.id != s[0].id {
        assert e in multiset(s[1..]);
        var k :| 0 <= k < |s[1..]| && s[1..][k] == e;
        assert s[k + 1] == e;
      }
      InsertDistinct(s[0], t);
    }
  }

  lemma {:induction false} InsertDistinct(x: Entry, t: seq<Entry>)
    requires DistinctIds(t) && forall e | e in t :: e.id != x.id
    ensures DistinctIds(Insert(x, t))
  {
    if !(|t| == 0 || x.atk >= t[0].atk) {
      InsertDistinct(x, t[1..]);
      var rest := Insert(x, t[1..]);
      forall e | e in rest ensures e.id != t[0].id {
        assert e in multiset(rest);
        if e != x {
          assert e in multiset(t[1..]);
          var k :| 0 <= k < |t[1..]| && t[1..][k] == e;
          assert t[k + 1] == e;
        }
      }
    }
  }

  /** `n` copies of `id`. */
  function Repeat(id: string, n: nat): (r: seq<string>)
    ensures |r| == n && forall k :: 0 <= k < n ==> r[k] == id
  {
    if n == 0 then [] else Repeat(id, n - 1) + [id]
  }

  /** The inner `for` of the greedy stages: push `id` up to `n` times, while
      the deck holds fewer than 20 cards. */
  function Taken(deck: seq<string>, n: int): (t: nat)
    ensures t == 0 || (t <= MIN_DECK_SIZE - |deck| && t <= n)
    ensures n <= 0 ==> t == 0
  {
    if n <= 0 || |deck| >= MIN_DECK_SIZE then 0 else Min(n, MIN_DECK_SIZE - |deck|)
  }

  /** A greedy stage of `autoFillDeck` over `entries`: each entry gets
      min(count, 3) copies (the protector stage), or min(count, 3 - copies
      already in the deck) (the other-monsters stage), while the deck is
      short of 20. */
  function Greedy(entries: seq<Entry>, deck: seq<string>, countExisting: bool): seq<string>
  {
    if |entries| == 0 || |deck| >= MIN_DECK_SIZE then deck
    else
      Greedy(entries[1..], Step(entries[0], deck, countExisting), countExisting)
  }

  /** `copiesToAdd` of a greedy stage: min(count, 3) in the protector stage,
      min(count, 3 - copies already in the deck) in the other-monsters stage. */
  function CopiesToAdd(e: Entry, deck: seq<string>, countExisting: bool): int {
    if countExisting then Min(e.countInCollection, MAX_COPIES_PER_CARD - Copies(deck, e.id))
    else Min(e.countInCollection, MAX_COPIES_PER_CARD)
  }

  /** One entry of a greedy stage: its copies are pushed while the deck is short of 20. */
  function Step(e: Entry, deck: seq<string>, countExisting: bool): (d: seq<string>)
    ensures |deck| <= |d| && d[..|deck|] == deck
    ensures forall k :: |deck| <= k < |d| ==> d[k] == e.id
  {
    deck + Repeat(e.id, Taken(deck, CopiesToAdd(e, deck, countExisting)))
  }

  /** The deck after both greedy stages, before the random top-up. */
  function GreedyDeck(available: seq<Entry>): seq<string>
  {
    var p := Greedy(SortDesc(Filter(available, true)), [], false);
    if |p| < MIN_DECK_SIZE then Greedy(SortDesc(Filter(available, false)), p, true) else p
  }

  /** The ids of a list of entries. */
  function Ids(s: seq<Entry>): (r: set<string>)
    ensures forall e | e in s :: e.id in r
    ensures forall id | id in r :: exists e :: e in s && e.id == id
  {
    set e | e in s :: e.id
  }

  /** `countInCollection` of the entry with that id, 0 when there is none. */
  function CountOf(s: seq<Entry>, id: string): (n: int)
    ensures id !in Ids(s) ==> n == 0
    ensures DistinctIds(s) ==> forall e | e in s && e.id == id :: n == e.countInCollection
  {
    if |s| == 0 then 0
    else if s[0].id == id then s[0].countInCollection
    else CountOf(s[1..], id)
  }

  /** At most 20 cards, and per id at most 3 copies and no more than its entry's count. */
  predicate WithinCollection(deck: seq<string>, available: seq<Entry>) {
    |deck| <= MIN_DECK_SIZE &&
    forall id | id in multiset(deck) ::
      Copies(deck, id) <= MAX_COPIES_PER_CARD && Copies(deck, id) <= CountOf(available, id)
  }

  lemma {:induction false} RepeatCount(id: string, n: nat)
    ensures multiset(Repeat(id, n))[id] == n
    ensures forall other :: other != id ==> multiset(Repeat(id, n))[other] == 0
  {
    if n > 0 {
      RepeatCount(id, n - 1);
    }
  }

  /** A greedy stage only appends, and only ids of its entries. */
  lemma {:induction false} GreedyExtends(entries: seq<Entry>, deck: seq<string>, countExisting: bool)
    ensures var r := Greedy(entries, deck, countExisting);
      |deck| <= |r| && r[..|deck|] == deck && forall k :: |deck| <= k < |r| ==> r[k] in Ids(entries)
    decreases |entries|
  {
    if |entries| > 0 && |deck| < MIN_DECK_SIZE {
      var d := Step(entries[0], deck, countExisting);
      GreedyExtends(entries[1..], d, countExisting);
      var r := Greedy(entries[1..], d, countExisting);
      assert r[..|deck|] == d[..|deck|];
      forall k | |deck| <= k < |r| ensures r[k] in Ids(entries) {
        if k < |d| {
          assert r[k] == d[k] == entries[0].id;
        } else {
          var x :| x in entries[1..] && x.id == r[k];
          assert x in entries;
        }
      }
    }
  }

  /** Appending `t` copies of a fresh entry id keeps the deck within the collection. */
  lemma AddCopiesWithin(deck: seq<string>, e: Entry, t: nat, available: seq<Entry>)
    requires DistinctIds(available) && e in available && e.id !in deck
    requires WithinCollection(deck, available)
    requires |deck| + t <= MIN_DECK_SIZE && t <= MAX_COPIES_PER_CARD && (t == 0 || t <= e.countInCollection)
    ensures WithinCollection(deck + Repeat(e.id, t), available)
  {
    var d := deck + Repeat(e.id, t);
    RepeatCount(e.id, t);
    assert multiset(d) == multiset(deck) + multiset(Repeat(e.id, t));
    forall id | id in multiset(d)
      ensures Copies(d, id) <= MAX_COPIES_PER_CARD && Copies(d, id) <= CountOf(available, id)
    {
      if id != e.id {
        assert Copies(d, id) == Copies(deck, id);
      }
    }
  }

  /** A greedy stage over entries whose ids are not yet in the deck keeps it within the collection. */
  lemma {:induction false} GreedyWithin(entries: seq<Entry>, deck: seq<string>, countExisting: bool, available: seq<Entry>)
    requires DistinctIds(available) && DistinctIds(entries)
    requires forall e | e in entries :: e in available && e.id !in deck
    requires WithinCollection(deck, available)
    ensures WithinCollection(Greedy(entries, deck, countExisting), available)
    decreases |entries|
  {
    if |entries| > 0 && |deck| < MIN_DECK_SIZE {
      var e := entries[0];
      assert Copies(deck, e.id) == 0;
      var t := Taken(deck, CopiesToAdd(e, deck, countExisting));
      AddCopiesWithin(deck, e, t, available);
      var d := deck + Repeat(e.id, t);
      assert d == Step(e, deck, countExisting);
      RestStayFresh(entries, deck, t);
      GreedyWithin(entries[1..], d, countExisting, available);
    }
  }

  /** After the copies of the first entry are pushed, the ids of the later
      entries are still absent from the deck. */
  lemma RestStayFresh(entries: seq<Entry>, deck: seq<string>, t: nat)
    requires |entries| > 0 && DistinctIds(entries)
    requires forall e | e in entries :: e.id !in deck
    ensures forall x | x in entries[1..] :: x in entries && x.id !in deck + Repeat(entries[0].id, t)
  {
    var d := deck + Repeat(entries[0].id, t);
    RepeatCount(entries[0].id, t);
    assert multiset(d) == multiset(deck) + multiset(Repeat(entries[0].id, t));
    forall x | x in entries[1..] ensures x in entries && x.id !in d {
      var k :| 1 <= k < |entries| && entries[k] == x;
      assert x.id != entries[0].id;
      assert multiset(d)[x.id] == 0;
    }
  }

  /** The protector stage alone. */
  function ProtectorStage(available: seq<Entry>): seq<string>
  {
    Greedy(SortDesc(Filter(available, true)), [], false)
  }

  /** The sort neither adds nor drops an entry. */
  lemma SortDescMembers(s: seq<Entry>)
    ensures forall e :: e in SortDesc(s) <==> e in s
    ensures DistinctIds(s) ==> DistinctIds(SortDesc(s))
    ensures Ids(SortDesc(s)) == Ids(s)
  {
    SortDescSorted(s);
    forall e ensures e in SortDesc(s) <==> e in s {
      assert e in SortDesc(s) <==> e in multiset(SortDesc(s));
      assert e in s <==> e in multiset(s);
    }
    if DistinctIds(s) {
      SortDescDistinct(s);
    }
  }

  /** The entries of the other-monsters stage have ids the protector stage never adds. */
  lemma StagesDisjoint(available: seq<Entry>)
    requires DistinctIds(available)
    ensures forall e | e in SortDesc(Filter(available, false)) :: e in available && e.id !in ProtectorStage(available)
  {
    var ps := SortDesc(Filter(available, true));
    var os := SortDesc(Filter(available, false));
    SortDescMembers(Filter(available, true));
    SortDescMembers(Filter(available, false));
    GreedyExtends(ps, [], false);
    var p := Greedy(ps, [], false);
    forall e | e in os ensures e in available && e.id !in p {
    }
  }

  /** The greedy deck has at most 20 cards and per id at most min(owned, 3) copies. */
  lemma GreedyDeckWithin(available: seq<Entry>)
    requires DistinctIds(available)
    ensures WithinCollection(GreedyDeck(available), available)
  {
    var ps := SortDesc(Filter(available, true));
    SortDescMembers(Filter(available, true));
    assert WithinCollection([], available);
    GreedyWithin(ps, [], false, available);
    var p := Greedy(ps, [], false);
    if |p| < MIN_DECK_SIZE {
      SortDescMembers(Filter(available, false));
      StagesDisjoint(available);
      GreedyWithin(SortDesc(Filter(available, false)), p, true, available);
    }
  }

  /** The greedy deck holds the protector ids first, then the other
      monsters; the sort keeps the ids of its input (SortDescMembers). */
  lemma GreedyDeckOrder(available: seq<Entry>)
    ensures var g, p := GreedyDeck(available), ProtectorStage(available);
      |p| <= |g| && g[..|p|] == p &&
      (forall k :: 0 <= k < |p| ==> g[k] in Ids(SortDesc(Filter(available, true)))) &&
      (forall k :: |p| <= k < |g| ==> g[k] in Ids(SortDesc(Filter(available, false))))
  {
    var ps := SortDesc(Filter(available, true));
    var os := SortDesc(Filter(available, false));
    var p := Greedy(ps, [], false);
    assert p == ProtectorStage(available);
    GreedyExtends(ps, [], false);
    if |p| < MIN_DECK_SIZE {
      GreedyExtends(os, p, true);
      var g := Greedy(os, p, true);
      forall k | 0 <= k < |p| ensures g[k] in Ids(ps) {
        assert g[k] == p[k];
      }
    }
  }

  /** The atk of the entry with that id, 0 when there is none. */
  function AtkOf(s: seq<Entry>, id: string): (a: int)
    ensures DistinctIds(s) ==> forall e | e in s && e.id == id :: a == e.atk
  {
    if |s| == 0 then 0
    else if s[0].id == id then s[0].atk
    else AtkOf(s[1..], id)
  }

  /** A greedy stage over entries sorted by descending atk pushes ids in
      descending atk order. */
  lemma {:induction false} GreedyAtkOrder(entries: seq<Entry>, deck: seq<string>, countExisting: bool, available: seq<Entry>)
    requires DistinctIds(available) && SortedDesc(entries)
    requires forall e | e in entries :: e in available
    ensures var r := Greedy(entries, deck, countExisting);
      forall k, k' :: |deck| <= k < k' < |r| ==> AtkOf(available, r[k]) >= AtkOf(available, r[k'])
    decreases |entries|
  {
    if |entries| > 0 && |deck| < MIN_DECK_SIZE {
      var e := entries[0];
      var d := Step(e, deck, countExisting);
      var rest := entries[1..];
      assert SortedDesc(rest);
      GreedyAtkOrder(rest, d, countExisting, available);
      GreedyExtends(rest, d, countExisting);
      var r := Greedy(rest, d, countExisting);
      assert r == Greedy(entries, deck, countExisting);
      forall k | |d| <= k < |r| ensures AtkOf(available, r[k]) <= e.atk {
        var x :| x in rest && x.id == r[k];
        var i :| 0 <= i < |rest| && rest[i] == x;
        assert entries[i + 1] == x;
      }
      forall k | |deck| <= k < |d| ensures r[k] == e.id && AtkOf(available, r[k]) == e.atk {
        assert r[k] == d[k];
      }
    }
  }

  /** The entries of a stage are sorted by descending atk and come from `available`. */
  lemma StageEntries(available: seq<Entry>, protectors: bool)
    ensures SortedDesc(SortDesc(Filter(available, protectors)))
    ensures forall e | e in SortDesc(Filter(available, protectors)) :: e in available
  {
    SortDescSorted(Filter(available, protectors));
    SortDescMembers(Filter(available, protectors));
  }

  /** Ids in descending atk between two positions of a deck. */
  predicate AtkDescending(available: seq<Entry>, deck: seq<string>, lo: nat, hi: nat)
    requires lo <= hi <= |deck|
  {
    forall k, k' :: lo <= k < k' < hi ==> AtkOf(available, deck[k]) >= AtkOf(available, deck[k'])
  }

  /** The protector stage alone is in descending atk. */
  lemma ProtectorStageAtkOrder(available: seq<Entry>)
    requires DistinctIds(available)
    ensures AtkDescending(available, ProtectorStage(available), 0, |ProtectorStage(available)|)
  {
    StageEntries(available, true);
    GreedyAtkOrder(SortDesc(Filter(available, true)), [], false, available);
    assert ProtectorStage(available) == Greedy(SortDesc(Filter(available, true)), [], false);
  }

  /** What the other-monsters stage appends is in descending atk. */
  lemma OtherStageAtkOrder(available: seq<Entry>, p: seq<string>)
    requires DistinctIds(available)
    ensures var r := Greedy(SortDesc(Filter(available, false)), p, true);
      |p| <= |r| && AtkDescending(available, r, |p|, |r|)
  {
    StageEntries(available, false);
    GreedyExtends(SortDesc(Filter(available, false)), p, true);
    GreedyAtkOrder(SortDesc(Filter(available, false)), p, true, available);
  }

  /** Each greedy stage lists its ids in descending atk: the protectors by
      descending atk, then the other monsters by descending atk. */
  lemma GreedyDeckAtkOrder(available: seq<Entry>)
    requires DistinctIds(available)
    ensures var g, p := GreedyDeck(available), ProtectorStage(available);
      |p| <= |g| && g[..|p|] == p &&
      AtkDescending(available, g, 0, |p|) && AtkDescending(available, g, |p|, |g|)
  {
    var p := ProtectorStage(available);
    var g := GreedyDeck(available);
    GreedyDeckOrder(available);
    ProtectorStageAtkOrder(available);
    forall k, k' | 0 <= k < k' < |p|
      ensures AtkOf(available, g[k]) >= AtkOf(available, g[k'])
    {
      assert g[k] == g[..|p|][k] && g[k'] == g[..|p|][k'];
    }
    if |p| < MIN_DECK_SIZE {
      OtherStageAtkOrder(available, p);
    } else {
      assert g == p;
    }
  }

  /** One push of the random top-up keeps the deck within the collection. */
  lemma PushWithin(deck: seq<string>, e: Entry, available: seq<Entry>)
    requires DistinctIds(available) && e in available
    requires WithinCollection(deck, available) && |deck| < MIN_DECK_SIZE
    requires Copies(deck, e.id) < e.countInCollection && Copies(deck, e.id) < MAX_COPIES_PER_CARD
    ensures WithinCollection(deck + [e.id], available)
  {
    var d := deck + [e.id];
    assert multiset(d) == multiset(deck) + multiset{e.id};
    forall id | id in multiset(d)
      ensures Copies(d, id) <= MAX_COPIES_PER_CARD && Copies(d, id) <= CountOf(available, id)
    {
      if id != e.id {
        assert Copies(d, id) == Copies(deck, id);
      }
    }
  }

  /** A deck within the available list of a collection (keys listed once)
      holds only owned Monstre ids of the catalog, each at most min(owned, 3) times. */
  lemma AvailableOwned(catalog: seq<CardDef>, collection: map<string, int>, keys: seq<string>, deck: seq<string>)
    requires Distinct(keys)
    requires WithinCollection(deck, Available(catalog, collection, keys))
    ensures forall id | id in multiset(deck) ::
      Copies(deck, id) <= MAX_COPIES_PER_CARD && Copies(deck, id) <= Owned(collection, id) &&
      id in collection && Find(catalog, id).Some? && Find(catalog, id).value.kind == Monstre
  {
    var available := Available(catalog, collection, keys);
    AvailableDistinct(catalog, collection, keys);
    forall id | id in multiset(deck)
      ensures Copies(deck, id) <= Owned(collection, id) &&
        id in collection && Find(catalog, id).Some? && Find(catalog, id).value.kind == Monstre
    {
      assert CountOf(available, id) >= 1;
      var e :| e in available && e.id == id;
      assert EntryFor(catalog, collection, id) == Some(e);
    }
  }

  /** A deck within the collection that extends the greedy deck has at
      most 20 cards, and is the greedy deck itself once that has 20. */
  lemma TopUpOutcome(g: seq<string>, deck: seq<string>, available: seq<Entry>)
    requires WithinCollection(deck, available) && |g| <= |deck| && deck[..|g|] == g
    ensures |deck| <= MIN_DECK_SIZE
    ensures |g| >= MIN_DECK_SIZE ==> deck == g
  {
    if |g| >= MIN_DECK_SIZE {
      assert deck == deck[..|g|];
    }
  }

  class Builder {
    /** The loaded catalog (`getAllCards()`). */
    const catalog: seq<CardDef>
    var userCollection: map<string, int>
    /** The keys of `userCollection` in insertion order, the order of `for ... in`. */
    var collectionKeys: seq<string>
    var userDeck: seq<string>

    ghost predicate Valid()
      reads this
    {
      Distinct(collectionKeys) && forall id :: id in userCollection <==> id in collectionKeys
    }

    /** An editor with an empty collection and an empty deck. */
    constructor (cards: seq<CardDef>)
      ensures Valid() && catalog == cards
      ensures userCollection == map[] && collectionKeys == [] && userDeck == []
    {
      catalog := cards;
      userCollection := map[];
      collectionKeys := [];
      userDeck := [];
    }

    /** `addToUserCollection(cardId, quantity)`; a new id becomes the last key. */
    method AddToUserCollection(cardId: string, quantity: int)
      requires Valid()
      modifies this`userCollection, this`collectionKeys
      ensures Valid()
      ensures userCollection == Collected(old(userCollection), cardId, quantity)
      ensures collectionKeys == if cardId in old(userCollection) then old(collectionKeys) else old(collectionKeys) + [cardId]
    {
      if cardId !in userCollection {
        collectionKeys := collectionKeys + [cardId];
      }
      userCollection := userCollection[cardId := Owned(userCollection, cardId) + quantity];
    }

    /** `addCardToDeck(cardId)`. */
    method AddCardToDeck(cardId: string)
      modifies this`userDeck
      ensures userDeck == AddCard(old(userDeck), cardId, Owned(userCollection, cardId))
    {
      var countInDeck := Copies(userDeck, cardId);
      var countInCollection := Owned(userCollection, cardId);
      if |userDeck| >= MAX_DECK_SIZE {
        return;
      }
      if countInDeck >= MAX_COPIES_PER_CARD {
        return;
      }
      if countInDeck >= countInCollection {
        return;
      }
      userDeck := userDeck + [cardId];
    }

    /** `removeCardFromDeck(cardId)`. */
    method RemoveCardFromDeck(cardId: string)
      modifies this`userDeck
      ensures userDeck == RemoveFirst(old(userDeck), cardId)
    {
      var cardIndex := FirstIndex(userDeck, cardId);
      if cardIndex.Some? {
        var i := cardIndex.value;
        userDeck := userDeck[..i] + userDeck[i + 1..];
      }
    }

    /** `saveUserDeck`'s answer; writing to storage is not modelled. */
    method SaveUserDeck() returns (saved: bool)
      ensures saved <==> MIN_DECK_SIZE <= |userDeck| <= MAX_DECK_SIZE
    {
      if |userDeck| < MIN_DECK_SIZE {
        return false;
      }
      if |userDeck| > MAX_DECK_SIZE {
        return false;
      }
      return true;
    }

    /** The loop of `autoFillDeck` that builds `availableCards`: one entry
        per owned Monstre of the collection, in key order, ids distinct. */
    method AvailableCards() returns (availableCards: seq<Entry>)
      requires Valid()
      ensures availableCards == Available(catalog, userCollection, collectionKeys)
      ensures DistinctIds(availableCards)
    {
      availableCards := [];
      for k := 0 to |collectionKeys|
        invariant availableCards == Available(catalog, userCollection, collectionKeys[..k])
      {
        var cardId := collectionKeys[k];
        var count := userCollection[cardId];
        if count > 0 {
          var cardDef := Find(catalog, cardId);
          if cardDef.Some? && cardDef.value.kind == Monstre {
            availableCards := availableCards + [Entry(cardId, count, PROTECTOR in cardDef.value.abilities, cardDef.value.atk)];
          }
        }
        assert collectionKeys[..k + 1][..k] == collectionKeys[..k];
      }
      assert collectionKeys[..|collectionKeys|] == collectionKeys;
      AvailableDistinct(catalog, userCollection, collectionKeys);
    }

    /** One greedy stage of `autoFillDeck`: the outer `for` over the sorted
        entries with its inner `for` over the copies to add. */
    method FillStage(entries: seq<Entry>, countExisting: bool)
      modifies this`userDeck
      ensures userDeck == Greedy(entries, old(userDeck), countExisting)
    {
      var k := 0;
      while k < |entries|
        invariant 0 <= k <= |entries|
        invariant Greedy(entries[k..], userDeck, countExisting) == Greedy(entries, old(userDeck), countExisting)
      {
        var e := entries[k];
        var copiesToAdd := CopiesToAdd(e, userDeck, countExisting);
        ghost var before := userDeck;
        assert |before| < MIN_DECK_SIZE ==>
          (Greedy(entries[k..], before, countExisting) ==
           Greedy(entries[k + 1..], Step(e, before, countExisting), countExisting)) by {
          assert entries[k..][1..] == entries[k + 1..];
        }
        PushCopies(e.id, copiesToAdd);
        assert userDeck == Step(e, before, countExisting);
        k := k + 1;
        if |userDeck| >= MIN_DECK_SIZE {
          break;
        }
      }
    }

    /** The inner `for` of a greedy stage: push `id` up to `copiesToAdd`
        times, stopping once the deck holds 20 cards. */
    method PushCopies(id: string, copiesToAdd: int)
      modifies this`userDeck
      ensures userDeck == old(userDeck) + Repeat(id, Taken(old(userDeck), copiesToAdd))
    {
      var i := 0;
      while i < copiesToAdd
        invariant 0 <= i <= Taken(old(userDeck), copiesToAdd)
        invariant userDeck == old(userDeck) + Repeat(id, i)
      {
        if |userDeck| < MIN_DECK_SIZE {
          userDeck := userDeck + [id];
        } else {
          break;
        }
        i := i + 1;
      }
    }

    /** The two greedy stages of `autoFillDeck` on an empty deck. */
    method GreedyFill(availableCards: seq<Entry>)
      requires userDeck == []
      modifies this`userDeck
      ensures userDeck == GreedyDeck(availableCards)
    {
      var protectors := SortDesc(Filter(availableCards, true));
      FillStage(protectors, false);
      if |userDeck| < MIN_DECK_SIZE {
        var otherMonsters := SortDesc(Filter(availableCards, false));
        FillStage(otherMonsters, true);
      }
    }

    /** The random top-up of `autoFillDeck`: up to 50 rounds, each visiting
        every available entry in the order `rounds` gives for it. */
    method TopUp(available: seq<Entry>, rounds: seq<seq<Entry>>)
      requires DistinctIds(available) && WithinCollection(userDeck, available)
      requires |rounds| >= FAILSAFE_ROUNDS
      requires forall r | r in rounds :: multiset(r) == multiset(available)
      modifies this`userDeck
      ensures WithinCollection(userDeck, available)
      ensures |old(userDeck)| <= |userDeck| && userDeck[..|old(userDeck)|] == old(userDeck)
    {
      var failsafeIteration := 0;
      while |userDeck| < MIN_DECK_SIZE && failsafeIteration < FAILSAFE_ROUNDS
        invariant 0 <= failsafeIteration <= FAILSAFE_ROUNDS
        invariant WithinCollection(userDeck, available)
        invariant |old(userDeck)| <= |userDeck| && userDeck[..|old(userDeck)|] == old(userDeck)
        decreases FAILSAFE_ROUNDS - failsafeIteration
      {
        var cardAddedInLoop := false;
        var order := rounds[failsafeIteration];
        for j := 0 to |order|
          invariant WithinCollection(userDeck, available)
          invariant |old(userDeck)| <= |userDeck| && userDeck[..|old(userDeck)|] == old(userDeck)
        {
          if |userDeck| >= MIN_DECK_SIZE {
            break;
          }
          var monster := order[j];
          var copiesInDeck := Copies(userDeck, monster.id);
          if copiesInDeck < monster.countInCollection && copiesInDeck < MAX_COPIES_PER_CARD {
            assert monster in multiset(available) by {
              assert order in rounds;
              assert monster in multiset(order);
            }
            PushWithin(userDeck, monster, available);
            userDeck := userDeck + [monster.id];
            cardAddedInLoop := true;
          }
        }
        failsafeIteration := failsafeIteration + 1;
        if !cardAddedInLoop && |userDeck| < MIN_DECK_SIZE {
          break;
        }
      }
    }

    /** `autoFillDeck`: at most 20 owned Monstre ids, per id at most
        min(owned, 3) copies, starting with the greedy deck (protectors by
        descending atk, then the other monsters by descending atk), then
        topped up in the orders `rounds` gives. */
    method AutoFillDeck(rounds: seq<seq<Entry>>)
      requires Valid()
      requires |rounds| >= FAILSAFE_ROUNDS
      requires forall r | r in rounds :: multiset(r) == multiset(Available(catalog, userCollection, collectionKeys))
      modifies this`userDeck
      ensures var available := Available(catalog, userCollection, collectionKeys);
        |GreedyDeck(available)| <= |userDeck| && userDeck[..|GreedyDeck(available)|] == GreedyDeck(available) &&
        (|GreedyDeck(available)| >= MIN_DECK_SIZE ==> userDeck == GreedyDeck(available)) &&
        (available == [] ==> userDeck == [])
      ensures |userDeck| <= MIN_DECK_SIZE
      ensures forall id | id in multiset(userDeck) ::
        Copies(userDeck, id) <= MAX_COPIES_PER_CARD && Copies(userDeck, id) <= Owned(userCollection, id) &&
        id in userCollection && Find(catalog, id).Some? && Find(catalog, id).value.kind == Monstre
    {
      userDeck := [];
      var availableCards := AvailableCards();
      ghost var available := availableCards;
      if |availableCards| == 0 {
        return;
      }
      GreedyFill(availableCards);
      GreedyDeckWithin(available);
      TopUp(availableCards, rounds);
      AvailableOwned(catalog, userCollection, collectionKeys, userDeck);
      TopUpOutcome(GreedyDeck(available), userDeck, available);
    }
  }
}
