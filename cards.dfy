/**
 * The card shape shared by the deck builder and the game board (GameCard.tsx),
 * the sample card collection of the deck builder, and the two list queries the
 * handlers run on card lists: `filter(c => c.id === id)` and
 * `findIndex(c => c.id === id)`.
 */
module Cards {
  import opened Builtins

  datatype CardType = Minion | Spell | Weapon

  datatype CardRarity = Common | Rare | Epic | Legendary

  /** A card as the components pass it around. The `image` URL and the
      view-only props (`className`, `onPlay`, `isInHand`, `isInteractive`) are
      not part of the model. */
  datatype Card = Card(
    id: string,
    name: string,
    cost: int,
    cardType: CardType,
    rarity: CardRarity,
    attack: Option<int>,
    health: Option<int>,
    effect: Option<string>,
    description: string)

  /** `cards.filter(c => c.id === id)`: the cards with that id and no other.
      `FilterByIdKeepsCopies` adds that every copy is kept; `FilterByIdConcat`
      (filtering a concatenation concatenates the filtered parts) with the
      one-card case below fixes the order: the copies come in list order. */
  function FilterById(cards: seq<Card>, id: string): (r: seq<Card>)
    ensures |r| <= |cards|
    ensures forall c :: c in r ==> c in cards && c.id == id
    ensures forall c :: c in cards && c.id == id ==> c in r
    ensures |cards| == 1 ==> r == (if cards[0].id == id then cards else [])
  {
    if cards == [] then []
    else (if cards[0].id == id then [cards[0]] else []) + FilterById(cards[1..], id)
  }

  /** The filter keeps every copy: each card with the id occurs in the result
      as often as in the list, and no other card occurs at all. */
  lemma {:induction false} FilterByIdKeepsCopies(cards: seq<Card>, id: string)
    ensures forall c :: multiset(FilterById(cards, id))[c] == (if c.id == id then multiset(cards)[c] else 0)
  {
    if cards != [] {
      FilterByIdKeepsCopies(cards[1..], id);
      assert cards == [cards[0]] + cards[1..];
    }
  }

  /** `cards.filter(c => c.id === id).length`: how many copies of `id` a list
      holds; zero exactly when no card has the id. */
  function CountById(cards: seq<Card>, id: string): (n: nat)
    ensures n <= |cards|
    ensures n == 0 <==> forall k :: 0 <= k < |cards| ==> cards[k].id != id
  {
    var r := FilterById(cards, id);
    assert r != [] ==> r[0] in cards;
    |r|
  }

  /** Filtering distributes over concatenation. */
  lemma {:induction false} FilterByIdConcat(a: seq<Card>, b: seq<Card>, id: string)
    ensures FilterById(a + b, id) == FilterById(a, id) + FilterById(b, id)
  {
    if a == [] {
      assert a + b == b;
    } else {
      assert (a + b)[1..] == a[1..] + b;
      FilterByIdConcat(a[1..], b, id);
    }
  }

  /** Appending one card adds one copy to its own id and none to any other. */
  lemma CountByIdAppend(cards: seq<Card>, card: Card, id: string)
    ensures CountById(cards + [card], id) == CountById(cards, id) + (if card.id == id then 1 else 0)
  {
    FilterByIdConcat(cards, [card], id);
    assert FilterById([card], id) == (if card.id == id then [card] else []) + FilterById([], id);
  }

  /** Taking one element out of a list never adds copies of any id. */
  lemma CountByIdSplice(cards: seq<Card>, start: int, id: string)
    ensures CountById(SpliceOne(cards, start), id) <= CountById(cards, id)
  {
    var k := SpliceStart(|cards|, start);
    if k < |cards| {
      SpliceRemovesExactlyIndex(cards, k);
      assert cards == cards[..k] + [cards[k]] + cards[k + 1..];
      FilterByIdConcat(cards[..k] + [cards[k]], cards[k + 1..], id);
      FilterByIdConcat(cards[..k], [cards[k]], id);
      FilterByIdConcat(cards[..k], cards[k + 1..], id);
    }
  }

  /** `cards.findIndex(c => c.id === id)`: the position of the first card with
      that id, or -1 when there is none. */
  function IndexOfId(cards: seq<Card>, id: string): (i: int)
    ensures -1 <= i < |cards|
    ensures i == -1 <==> forall k :: 0 <= k < |cards| ==> cards[k].id != id
    ensures i >= 0 ==> cards[i].id == id && forall k :: 0 <= k < i ==> cards[k].id != id
  {
    if cards == [] then -1
    else if cards[0].id == id then 0
    else
      var j := IndexOfId(cards[1..], id);
      if j == -1 then -1 else j + 1
  }

  /** Two cards with the same id have the same rarity: the copy limits assume
      it (they look up the rarity of the card being added, not of the copies). */
  ghost predicate RarityConsistent(cards: seq<Card>) {
    forall i, j :: 0 <= i < |cards| && 0 <= j < |cards| && cards[i].id == cards[j].id ==>
      cards[i].rarity == cards[j].rarity
  }

  ghost predicate UniqueCardIds(cards: seq<Card>) {
    forall i, j :: 0 <= i < j < |cards| ==> cards[i].id != cards[j].id
  }

  /** Every list drawn from a catalog with unique ids is rarity-consistent. */
  lemma DrawnFromCatalogIsConsistent(catalog: seq<Card>, cards: seq<Card>)
    requires UniqueCardIds(catalog)
    requires forall c :: c in cards ==> c in catalog
    ensures RarityConsistent(cards)
  {
    forall i, j | 0 <= i < |cards| && 0 <= j < |cards| && cards[i].id == cards[j].id
      ensures cards[i].rarity == cards[j].rarity
    {
      assert cards[i] in catalog && cards[j] in catalog;
      var x :| 0 <= x < |catalog| && catalog[x] == cards[i];
      var y :| 0 <= y < |catalog| && catalog[y] == cards[j];
      assert x == y;
    }
  }

  // ---------------------------------------------------------------------------
  // The sample card collection (`CARD_COLLECTION`)
  // ---------------------------------------------------------------------------

  /** `CARD_COLLECTION`, one function per card so that proofs about the
      collection need not unfold all twelve records at once. */
  function CardCollection(): seq<Card> {
    [ FireElemental(), HealingRain(), AncientDragon(), ShadowBlade(), NoviceWizard(), Defender(), DarkKnight(), TimeWarp(), HealingPotion(), Fireball(), JunglePanther(), HolyLight() ]
  }

  function FireElemental(): Card {
    Card("1", "Fire Elemental", 2, Minion, Rare, Some(3), Some(2), None,
         "Deal 1 damage to all enemy minions when played")
  }

  function HealingRain(): Card {
    Card("2", "Healing Rain", 3, Spell, Common, None, None, None,
         "Restore 4 health to your hero")
  }

  function AncientDragon(): Card {
    Card("3", "Ancient Dragon", 7, Minion, Legendary, Some(8), Some(8), None,
         "Whenever this attacks, draw a card")
  }

  function ShadowBlade(): Card {
    Card("4", "Shadow Blade", 2, Weapon, Epic, Some(3), Some(2), None,
         "Your hero is immune when attacking")
  }

  function NoviceWizard(): Card {
    Card("5", "Novice Wizard", 1, Minion, Common, Some(1), Some(1), None,
         "Spell Damage +1")
  }

  function Defender(): Card {
    Card("6", "Defender", 2, Minion, Common, Some(2), Some(3), None, "Taunt")
  }

  function DarkKnight(): Card {
    Card("7", "Dark Knight", 4, Minion, Epic, Some(5), Some(4), None,
         "Deals double damage to heroes")
  }

  function TimeWarp(): Card {
    Card("8", "Time Warp", 5, Spell, Legendary, None, None, None,
         "Take an extra turn after this one")
  }

  function HealingPotion(): Card {
    Card("9", "Healing Potion", 1, Spell, Common, None, None, None,
         "Restore 3 health to any character")
  }

  function Fireball(): Card {
    Card("10", "Fireball", 4, Spell, Common, None, None, None,
         "Deal 6 damage to any target")
  }

  function JunglePanther(): Card {
    Card("11", "Jungle Panther", 3, Minion, Common, Some(4), Some(2), None, "Stealth")
  }

  function HolyLight(): Card {
    Card("12", "Holy Light", 2, Spell, Rare, None, None, None,
         "Restore 6 health to a friendly character")
  }

  /** A proof device: on the ids "1" to "12" this number (length and last
      digit) differs whenever the ids do. */
  function IdKey(s: string): int {
    if s == [] then 0 else |s| * 1000 + s[|s| - 1] as int
  }

  /** The collection has twelve cards with distinct ids, so every deck built
      from it is rarity-consistent. */
  lemma CardCollectionUniqueIds()
    ensures |CardCollection()| == 12
    ensures UniqueCardIds(CardCollection())
  {
    var cc := CardCollection();
    var keys := [1049, 1050, 1051, 1052, 1053, 1054, 1055, 1056, 1057, 2048, 2049, 2050];
    assert forall k :: 0 <= k < 12 ==> IdKey(cc[k].id) == keys[k];
    forall i, j | 0 <= i < j < |cc| ensures cc[i].id != cc[j].id {
      assert IdKey(cc[i].id) != IdKey(cc[j].id);
    }
  }

  /** No card of the collection has a negative cost. */
  lemma CardCollectionCostsNonNegative()
    ensures forall k :: 0 <= k < |CardCollection()| ==> CardCollection()[k].cost >= 0
  {
    var cc := CardCollection();
    var costs := [2, 3, 7, 2, 1, 2, 4, 5, 1, 4, 3, 2];
    assert forall k :: 0 <= k < 12 ==> cc[k].cost == costs[k];
  }

  /** A slice of a list with distinct ids has distinct ids. */
  lemma SliceKeepsUniqueIds(cards: seq<Card>, a: nat, b: nat)
    requires a <= b <= |cards|
    requires UniqueCardIds(cards)
    ensures UniqueCardIds(cards[a..b])
  {
    forall i, j | 0 <= i < j < b - a ensures cards[a..b][i].id != cards[a..b][j].id {
      assert cards[a..b][i] == cards[a + i] && cards[a..b][j] == cards[a + j];
    }
  }
}
