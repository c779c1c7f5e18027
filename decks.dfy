/**
 * Deck editing and validation (DeckBuilder.tsx): the size and copy-count rules
 * for adding a card, the minimum size for saving, the stored list of decks and
 * the transient "new" deck, and the group-by-id view of the current deck.
 */
module Decks {
  import opened Builtins
  import opened Cards

  const MaxDeckSize: nat := 20
  const MinSaveSize: nat := 10

  /** The id of the transient deck that is not yet in the stored list. */
  const NewDeckId: string := "new"

  datatype Deck = Deck(id: string, name: string, cards: seq<Card>)

  function NewDeck(): Deck {
    Deck(NewDeckId, "New Deck", [])
  }

  /** `SAMPLE_DECKS`: slices of the card collection. */
  function SampleDecks(): seq<Deck> {
    [ Deck("d1", "Aggro Warrior", CardCollection()[0..5]),
      Deck("d2", "Control Mage", CardCollection()[3..8]) ]
  }

  // ---------------------------------------------------------------------------
  // Validation of an addition
  // ---------------------------------------------------------------------------

  /** Why an addition was refused, one tag per destructive toast. */
  datatype AddRejection = DeckFull | LegendaryCopyLimit | TwoCopyLimit

  /** Copies of one card a deck may hold: one for a legendary, two otherwise. */
  function CopyLimitOf(rarity: CardRarity): nat {
    if rarity == Legendary then 1 else 2
  }

  /** The three guards of the add handler, evaluated in the handler's order.
      `None` means the card may be appended. Net effect: the deck must have
      room, and the card must be below its rarity's copy limit. */
  function CheckAdd(cards: seq<Card>, card: Card): (r: Option<AddRejection>)
    ensures r == Some(DeckFull) <==> |cards| >= MaxDeckSize
    ensures r == Some(LegendaryCopyLimit) <==>
              |cards| < MaxDeckSize && card.rarity == Legendary && CountById(cards, card.id) >= 1
    ensures r == Some(TwoCopyLimit) <==>
              |cards| < MaxDeckSize && card.rarity != Legendary && CountById(cards, card.id) >= 2
    ensures r == None <==>
              |cards| < MaxDeckSize && CountById(cards, card.id) < CopyLimitOf(card.rarity)
  {
    var cardCount := CountById(cards, card.id);
    if |cards| >= MaxDeckSize then Some(DeckFull)
    else if card.rarity == Legendary && cardCount >= 1 then Some(LegendaryCopyLimit)
    else if cardCount >= 2 then Some(TwoCopyLimit)
    else None
  }

  /** The deck-construction rules: at most twenty cards, and no card above the
      copy limit of its rarity. */
  ghost predicate DeckLegal(cards: seq<Card>) {
    && |cards| <= MaxDeckSize
    && forall c :: c in cards ==> CountById(cards, c.id) <= CopyLimitOf(c.rarity)
  }

  /** An accepted addition keeps a legal deck legal, provided rarity is a
      function of the card id. */
  lemma AddKeepsDeckLegal(cards: seq<Card>, card: Card)
    requires DeckLegal(cards)
    requires RarityConsistent(cards + [card])
    requires CheckAdd(cards, card) == None
    ensures DeckLegal(cards + [card])
  {
    var next := cards + [card];
    forall c | c in next ensures CountById(next, c.id) <= CopyLimitOf(c.rarity) {
      CountByIdAppend(cards, card, c.id);
      if c.id == card.id {
        var i :| 0 <= i < |next| && next[i] == c;
        assert next[|next| - 1] == card;
        assert c.rarity == card.rarity;
      } else {
        assert c in cards;
      }
    }
  }

  /** Removing a card (any index, with splice's clamping) keeps a legal deck legal. */
  lemma RemoveKeepsDeckLegal(cards: seq<Card>, index: int)
    requires DeckLegal(cards)
    ensures DeckLegal(SpliceOne(cards, index))
  {
    var next := SpliceOne(cards, index);
    forall c | c in next ensures CountById(next, c.id) <= CopyLimitOf(c.rarity) {
      CountByIdSplice(cards, index, c.id);
      var k := SpliceStart(|cards|, index);
      var j :| 0 <= j < |next| && next[j] == c;
      if j < k {
        assert cards[j] == c;
      } else {
        assert cards[j + 1] == c;
      }
    }
  }

  /** Up to twenty cards sliced from a catalog with distinct ids form a legal,
      rarity-consistent deck drawn from it: every card occurs once. */
  lemma CatalogSliceLegal(catalog: seq<Card>, a: nat, b: nat)
    requires a <= b <= |catalog| && b - a <= MaxDeckSize
    requires UniqueCardIds(catalog)
    ensures DeckLegal(catalog[a..b]) && RarityConsistent(catalog[a..b])
    ensures DrawnFrom(catalog, catalog[a..b])
  {
    var cards := catalog[a..b];
    forall c | c in cards ensures c in catalog {
      var i :| 0 <= i < |cards| && cards[i] == c;
      assert c == catalog[a + i];
    }
    SliceKeepsUniqueIds(catalog, a, b);
    DrawnFromCatalogIsConsistent(cards, cards);
    forall c | c in cards ensures CountById(cards, c.id) <= CopyLimitOf(c.rarity) {
      DistinctIdsCountOne(cards, c);
    }
  }

  /** The two sample decks are drawn from the collection and follow the rules. */
  lemma SampleDecksLegal()
    ensures forall d :: d in SampleDecks() ==> DeckLegal(d.cards) && RarityConsistent(d.cards)
    ensures forall d :: d in SampleDecks() ==> DrawnFrom(CardCollection(), d.cards)
  {
    var cc := CardCollection();
    CardCollectionUniqueIds();
    CatalogSliceLegal(cc, 0, 5);
    CatalogSliceLegal(cc, 3, 8);
    var ds := SampleDecks();
    assert ds == [Deck("d1", "Aggro Warrior", cc[0..5]), Deck("d2", "Control Mage", cc[3..8])];
    forall d | d in ds ensures DeckLegal(d.cards) && RarityConsistent(d.cards) && DrawnFrom(cc, d.cards) {
      assert d.cards == cc[0..5] || d.cards == cc[3..8];
    }
  }

  // ---------------------------------------------------------------------------
  // Decks built only from a catalog with distinct ids
  // ---------------------------------------------------------------------------

  /** Every card of the list is a card of the catalog: the add handler is only
      ever offered cards of the (filtered) collection. */
  ghost predicate DrawnFrom(catalog: seq<Card>, cards: seq<Card>) {
    forall c :: c in cards ==> c in catalog
  }

  /** A deck the editor can produce: drawn from the catalog and legal. */
  ghost predicate SoundDeck(catalog: seq<Card>, cards: seq<Card>) {
    DrawnFrom(catalog, cards) && DeckLegal(cards)
  }

  /** Adding a catalog card that `CheckAdd` accepts keeps a sound deck sound;
      no rarity hypothesis is needed, since the catalog's ids are distinct. */
  lemma AddKeepsSoundDeck(catalog: seq<Card>, cards: seq<Card>, card: Card)
    requires UniqueCardIds(catalog)
    requires SoundDeck(catalog, cards)
    requires card in catalog
    requires CheckAdd(cards, card) == None
    ensures SoundDeck(catalog, cards + [card])
  {
    DrawnFromCatalogIsConsistent(catalog, cards + [card]);
    AddKeepsDeckLegal(cards, card);
  }

  /** Removing at any index keeps a sound deck sound. */
  lemma RemoveKeepsSoundDeck(catalog: seq<Card>, cards: seq<Card>, index: int)
    requires SoundDeck(catalog, cards)
    ensures SoundDeck(catalog, SpliceOne(cards, index))
  {
    RemoveKeepsDeckLegal(cards, index);
    var r := SpliceOne(cards, index);
    forall c | c in r ensures c in catalog {
      assert c in multiset(r);
    }
  }

  /** In a list of distinct ids every card occurs once. */
  lemma {:induction false} DistinctIdsCountOne(cards: seq<Card>, c: Card)
    requires UniqueCardIds(cards)
    requires c in cards
    ensures CountById(cards, c.id) == 1
  {
    if cards[0] == c {
      forall k | 0 <= k < |cards[1..]| ensures cards[1..][k].id != c.id {
        assert cards[1..][k] == cards[k + 1];
      }
      NoCopies(cards[1..], c.id);
    } else {
      DistinctIdsCountOne(cards[1..], c);
      assert cards[0].id != c.id by {
        var j :| 0 <= j < |cards| && cards[j] == c;
      }
    }
  }

  lemma {:induction false} NoCopies(cards: seq<Card>, id: string)
    requires forall k :: 0 <= k < |cards| ==> cards[k].id != id
    ensures CountById(cards, id) == 0
  {
    if cards != [] {
      NoCopies(cards[1..], id);
    }
  }

  // ---------------------------------------------------------------------------
  // The group-by-id reduce that lists the current deck
  // ---------------------------------------------------------------------------

  /** `cards.reduce((acc, card) => { acc[card.id] = acc[card.id] ? [...acc[card.id], card] : [card]; return acc }, {})` */
  function GroupById(cards: seq<Card>): (groups: map<string, seq<Card>>)
    ensures forall k :: k in groups ==> groups[k] != []
    ensures forall k, c :: k in groups && c in groups[k] ==> c in cards && c.id == k
  {
    if cards == [] then map[]
    else
      var acc := GroupById(cards[..|cards| - 1]);
      var card := cards[|cards| - 1];
      acc[card.id := if card.id in acc then acc[card.id] + [card] else [card]]
  }

  /** Each group holds exactly the copies of its id, in deck order, and only
      ids present in the deck have a group. */
  lemma {:induction false} GroupByIdIsFilter(cards: seq<Card>, id: string)
    ensures id in GroupById(cards) <==> CountById(cards, id) > 0
    ensures id in GroupById(cards) ==> GroupById(cards)[id] == FilterById(cards, id)
  {
    if cards != [] {
      var prefix := cards[..|cards| - 1];
      var card := cards[|cards| - 1];
      assert cards == prefix + [card];
      GroupByIdIsFilter(prefix, id);
      FilterByIdConcat(prefix, [card], id);
      assert FilterById([card], id) == (if card.id == id then [card] else []) + FilterById([], id);
    }
  }

  // ---------------------------------------------------------------------------
  // The stored list of decks
  // ---------------------------------------------------------------------------

  ghost predicate UniqueDeckIds(decks: seq<Deck>) {
    forall i, j :: 0 <= i < j < |decks| ==> decks[i].id != decks[j].id
  }

  /** `decks.find(d => d.id === id)`: some deck with that id, or none when no
      stored deck has it. */
  function FindDeck(decks: seq<Deck>, id: string): (r: Option<Deck>)
    ensures r == None <==> forall k :: 0 <= k < |decks| ==> decks[k].id != id
    ensures r.Some? ==> r.value in decks && r.value.id == id
  {
    if decks == [] then None
    else if decks[0].id == id then Some(decks[0])
    else
      var r := FindDeck(decks[1..], id);
      assert forall k :: 0 < k < |decks| ==> decks[k] == decks[1..][k - 1];
      r
  }

  /** `find` returns the first deck with the id: the one at position `k`
      when no earlier deck has its id. */
  lemma {:induction false} FindDeckFirst(decks: seq<Deck>, k: int)
    requires 0 <= k < |decks|
    requires forall j :: 0 <= j < k ==> decks[j].id != decks[k].id
    ensures FindDeck(decks, decks[k].id) == Some(decks[k])
  {
    if k > 0 {
      assert decks[1..][k - 1] == decks[k];
      FindDeckFirst(decks[1..], k - 1);
    }
  }

  /** With distinct ids, `find` returns the one deck stored under the id. */
  lemma FindDeckUnique(decks: seq<Deck>, k: int)
    requires UniqueDeckIds(decks)
    requires 0 <= k < |decks|
    ensures FindDeck(decks, decks[k].id) == Some(decks[k])
  {
    FindDeckFirst(decks, k);
  }

  /** `decks.map(d => d.id === deck.id ? deck : d)`: every entry with the
      deck's id is replaced by it, every other entry stays where it was. */
  function ReplaceDeck(decks: seq<Deck>, deck: Deck): (r: seq<Deck>)
    ensures |r| == |decks|
    ensures forall i :: 0 <= i < |r| && decks[i].id == deck.id ==> r[i] == deck
    ensures forall i :: 0 <= i < |r| && decks[i].id != deck.id ==> r[i] == decks[i]
  {
    seq(|decks|, i requires 0 <= i < |decks| => if decks[i].id == deck.id then deck else decks[i])
  }

  /** `decks.map(d => d.id === id ? { ...d, name } : d)`: only the name of the
      matching entries changes; their ids and stored cards are kept. */
  function RenameDeckIn(decks: seq<Deck>, id: string, name: string): (r: seq<Deck>)
    ensures |r| == |decks|
    ensures forall i :: 0 <= i < |r| && decks[i].id == id ==>
              r[i].name == name && r[i].id == id && r[i].cards == decks[i].cards
    ensures forall i :: 0 <= i < |r| && decks[i].id != id ==> r[i] == decks[i]
  {
    seq(|decks|, i requires 0 <= i < |decks| =>
      if decks[i].id == id then decks[i].(name := name) else decks[i])
  }

  /** Renaming keeps every position's id and cards, so the stored list keeps
      its distinct ids and every lookup by id still succeeds or fails as before. */
  lemma RenameKeepsStoreShape(decks: seq<Deck>, id: string, name: string)
    ensures var r := RenameDeckIn(decks, id, name);
            && (forall i :: 0 <= i < |r| ==> r[i].id == decks[i].id && r[i].cards == decks[i].cards)
            && (UniqueDeckIds(decks) ==> UniqueDeckIds(r))
            && (forall x :: FindDeck(r, x).Some? <==> FindDeck(decks, x).Some?)
            && (forall d :: d in r ==> exists e :: e in decks && d.id == e.id && d.cards == e.cards)
  {
    var r := RenameDeckIn(decks, id, name);
    forall d | d in r ensures exists e :: e in decks && d.id == e.id && d.cards == e.cards {
      var i :| 0 <= i < |r| && r[i] == d;
      assert decks[i] in decks;
    }
  }

  /** After the stored copy of a deck is replaced, looking its id up yields the
      saved contents, and every position keeps its id. */
  lemma ReplacedDeckIsFound(decks: seq<Deck>, deck: Deck)
    requires UniqueDeckIds(decks)
    requires FindDeck(decks, deck.id).Some?
    ensures FindDeck(ReplaceDeck(decks, deck), deck.id) == Some(deck)
    ensures UniqueDeckIds(ReplaceDeck(decks, deck))
    ensures forall i :: 0 <= i < |decks| ==> ReplaceDeck(decks, deck)[i].id == decks[i].id
  {
    var r := ReplaceDeck(decks, deck);
    var k :| 0 <= k < |decks| && decks[k] == FindDeck(decks, deck.id).value;
    FindDeckUnique(r, k);
  }

  /** A deck appended under a fresh id is found under that id, and the ids stay
      distinct. */
  lemma AppendedDeckIsFound(decks: seq<Deck>, deck: Deck)
    requires UniqueDeckIds(decks)
    requires FindDeck(decks, deck.id) == None
    ensures FindDeck(decks + [deck], deck.id) == Some(deck)
    ensures UniqueDeckIds(decks + [deck])
  {
    FindDeckUnique(decks + [deck], |decks|);
  }

  // ---------------------------------------------------------------------------
  // The deck builder's state: the deck being edited and the stored decks
  // ---------------------------------------------------------------------------

  datatype SaveOutcome = DeckTooSmall | DeckCreated(id: string) | DeckUpdated

  class DeckBuilder {
    var currentDeck: Deck
    var decks: seq<Deck>
    /** `CARD_COLLECTION`, the cards the editor offers. */
    const catalog: seq<Card>

    /** The catalog has distinct ids; stored decks have distinct ids other
        than "new"; every deck, stored or current, is drawn from the catalog
        and legal (at most twenty cards, no card above its copy limit); and a
        current deck that is not "new" is a stored one. */
    ghost predicate Valid()
      reads this
    {
      && UniqueCardIds(catalog)
      && UniqueDeckIds(decks)
      && (forall d :: d in decks ==> d.id != NewDeckId && SoundDeck(catalog, d.cards))
      && SoundDeck(catalog, currentDeck.cards)
      && (currentDeck.id == NewDeckId || FindDeck(decks, currentDeck.id).Some?)
    }

    constructor ()
      ensures Valid()
      ensures currentDeck == NewDeck() && decks == SampleDecks() && catalog == CardCollection()
    {
      CardCollectionUniqueIds();
      SampleDecksLegal();
      currentDeck := NewDeck();
      decks := SampleDecks();
      catalog := CardCollection();
    }

    /** `handleAddCardToDeck`, offered a card of the collection: append it
        when the deck has room and the card is below its copy limit, otherwise
        refuse and change nothing. The deck stays legal either way. */
    method AddCard(card: Card) returns (r: Option<AddRejection>)
      requires Valid()
      requires card in catalog
      modifies this
      ensures Valid()
      ensures r == CheckAdd(old(currentDeck.cards), card)
      ensures r == None ==> currentDeck == old(currentDeck).(cards := old(currentDeck.cards) + [card])
      ensures r != None ==> currentDeck == old(currentDeck)
      ensures decks == old(decks)
      ensures DeckLegal(currentDeck.cards)
    {
      if |currentDeck.cards| >= MaxDeckSize {
        return Some(DeckFull);
      }
      var cardCount := CountById(currentDeck.cards, card.id);
      if card.rarity == Legendary && cardCount >= 1 {
        return Some(LegendaryCopyLimit);
      }
      if cardCount >= 2 {
        return Some(TwoCopyLimit);
      }
      AddKeepsSoundDeck(catalog, currentDeck.cards, card);
      currentDeck := currentDeck.(cards := currentDeck.cards + [card]);
      r := None;
    }

    /** `handleRemoveCardFromDeck`: splice one card out at `index`. */
    method RemoveCard(index: int)
      requires Valid()
      modifies this
      ensures Valid()
      ensures currentDeck == old(currentDeck).(cards := SpliceOne(old(currentDeck.cards), index))
      ensures 0 <= index < |old(currentDeck.cards)| ==>
                currentDeck.cards == old(currentDeck.cards)[..index] + old(currentDeck.cards)[index + 1..]
      ensures decks == old(decks)
      ensures DeckLegal(currentDeck.cards)
    {
      if 0 <= index < |currentDeck.cards| {
        SpliceRemovesExactlyIndex(currentDeck.cards, index);
      }
      RemoveKeepsSoundDeck(catalog, currentDeck.cards, index);
      currentDeck := currentDeck.(cards := SpliceOne(currentDeck.cards, index));
    }

    /** `handleSaveDeck`: refuse a deck under ten cards; store a "new" deck
        under `freshId` (the `d${Date.now()}` id) and make it current; replace
        the stored entry of an existing deck. */
    method SaveDeck(freshId: string) returns (r: SaveOutcome)
      requires Valid()
      requires freshId != NewDeckId && FindDeck(decks, freshId) == None
      modifies this
      ensures Valid()
      ensures |old(currentDeck.cards)| < MinSaveSize ==>
                r == DeckTooSmall && currentDeck == old(currentDeck) && decks == old(decks)
      ensures |old(currentDeck.cards)| >= MinSaveSize && old(currentDeck.id) == NewDeckId ==>
                && r == DeckCreated(freshId)
                && currentDeck == old(currentDeck).(id := freshId)
                && decks == old(decks) + [currentDeck]
      ensures |old(currentDeck.cards)| >= MinSaveSize && old(currentDeck.id) != NewDeckId ==>
                && r == DeckUpdated
                && currentDeck == old(currentDeck)
                && decks == ReplaceDeck(old(decks), old(currentDeck))
                && |decks| == |old(decks)|
      ensures r != DeckTooSmall ==> FindDeck(decks, currentDeck.id) == Some(currentDeck)
    {
      if |currentDeck.cards| < MinSaveSize {
        return DeckTooSmall;
      }
      if currentDeck.id == NewDeckId {
        var newDeck := currentDeck.(id := freshId);
        AppendedDeckIsFound(decks, newDeck);
        decks := decks + [newDeck];
        currentDeck := newDeck;
        r := DeckCreated(freshId);
      } else {
        ReplacedDeckIsFound(decks, currentDeck);
        decks := ReplaceDeck(decks, currentDeck);
        r := DeckUpdated;
      }
    }

    /** `handleChangeDeck`: "new" starts an empty transient deck; a stored id
        loads that deck; an unknown id leaves the current deck as it is. */
    method ChangeDeck(deckId: string)
      requires Valid()
      modifies this
      ensures Valid()
      ensures deckId == NewDeckId ==> currentDeck == NewDeck()
      ensures deckId != NewDeckId && FindDeck(decks, deckId).Some? ==>
                currentDeck == FindDeck(decks, deckId).value && currentDeck.id == deckId
      ensures deckId != NewDeckId && FindDeck(decks, deckId) == None ==> currentDeck == old(currentDeck)
      ensures decks == old(decks)
    {
      if deckId == NewDeckId {
        currentDeck := NewDeck();
      } else {
        var deck := FindDeck(decks, deckId);
        if deck.Some? {
          currentDeck := deck.value;
        }
      }
    }

    /** `handleRenameDeck`: a name that is blank after trimming changes
        nothing; otherwise the current deck takes the name as typed and, for a
        stored deck, so does its stored entry (whose cards are left alone). */
    method RenameDeck(nameInput: string)
      requires Valid()
      modifies this
      ensures Valid()
      ensures Trim(nameInput) == [] ==> currentDeck == old(currentDeck) && decks == old(decks)
      ensures Trim(nameInput) != [] ==> currentDeck == old(currentDeck).(name := nameInput)
      ensures Trim(nameInput) != [] && old(currentDeck.id) != NewDeckId ==>
                decks == RenameDeckIn(old(decks), old(currentDeck.id), nameInput)
      ensures old(currentDeck.id) == NewDeckId ==> decks == old(decks)
    {
      if Trim(nameInput) == [] {
        return;
      }
      var id := currentDeck.id;
      currentDeck := currentDeck.(name := nameInput);
      if id != NewDeckId {
        RenameKeepsStoreShape(decks, id, nameInput);
        decks := RenameDeckIn(decks, id, nameInput);
      }
    }

    /** `handleClearDeck`: empty the current deck, keeping its id and name. */
    method ClearDeck()
      requires Valid()
      modifies this
      ensures Valid()
      ensures currentDeck == old(currentDeck).(cards := [])
      ensures decks == old(decks)
    {
      currentDeck := currentDeck.(cards := []);
    }
  }
}
