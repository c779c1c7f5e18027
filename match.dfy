/**
 * The match rules of the game board (GameBoard.tsx): whose turn it is, the
 * player's mana, hand and board, playing a card from hand, and ending a turn
 * with the deferred step that hands the turn back with one more mana.
 */
module Match {
  import opened Builtins
  import opened Cards

  /** `currentPlayer: 'player' | 'opponent'`. */
  datatype Side = Player | Opponent

  /** `PlayerState` for the local player; `deck` is the size of the draw pile. */
  datatype PlayerState = PlayerState(
    name: string,
    health: int,
    maxHealth: int,
    mana: int,
    maxMana: int,
    deck: int,
    hand: seq<Card>,
    board: seq<Card>)

  /** The opponent's `PlayerState`: its hand holds only placeholders, so only
      their number is kept. */
  datatype OpponentState = OpponentState(
    name: string,
    health: int,
    maxHealth: int,
    mana: int,
    maxMana: int,
    deck: int,
    handCount: nat,
    board: seq<Card>)

  /** Why a play was refused. `CardNotInHand` is silent in the component. */
  datatype PlayRejection = NotYourTurn | CardNotInHand | NotEnoughMana(cost: int, mana: int)

  /** The notifications a successful play raises (the non-destructive toasts). */
  datatype PlayEvent = LegendaryPlayed(cardName: string) | SpellCast(description: string)

  datatype PlayResult =
    | Rejected(reason: PlayRejection)
    | Played(next: PlayerState, card: Card, event: Option<PlayEvent>)

  /** The state of the board when the component mounts. */
  function InitialPlayer(): PlayerState {
    PlayerState("You", 30, 30, 3, 10, 24,
      [ Card("p1", "Fire Elemental", 2, Minion, Rare, Some(3), Some(2), None,
             "Deal 1 damage to all enemy minions when played"),
        Card("p2", "Healing Rain", 3, Spell, Common, None, None, None,
             "Restore 4 health to your hero"),
        Card("p3", "Ancient Dragon", 7, Minion, Legendary, Some(8), Some(8), None,
             "Whenever this attacks, draw a card"),
        Card("p4", "Shadow Blade", 2, Weapon, Epic, Some(3), Some(2), None,
             "Your hero is immune when attacking") ],
      [ Card("pb1", "Novice Wizard", 1, Minion, Common, Some(1), Some(1), None,
             "Spell Damage +1") ])
  }

  function InitialOpponent(): OpponentState {
    OpponentState("Opponent", 24, 30, 4, 10, 20, 3,
      [ Card("ob1", "Defender", 2, Minion, Common, Some(2), Some(3), None, "Taunt"),
        Card("ob2", "Dark Knight", 4, Minion, Epic, Some(5), Some(4), None,
             "Deals double damage to heroes") ])
  }

  /** The event a played card raises: a legendary minion is announced, a spell
      surfaces its description, anything else is silent. */
  function PlayEventOf(card: Card): (e: Option<PlayEvent>)
    ensures e == Some(LegendaryPlayed(card.name)) <==> card.cardType == Minion && card.rarity == Legendary
    ensures e == Some(SpellCast(card.description)) <==> card.cardType == Spell
    ensures e == None <==> card.cardType == Weapon || (card.cardType == Minion && card.rarity != Legendary)
  {
    match card.cardType
    case Minion => if card.rarity == Legendary then Some(LegendaryPlayed(card.name)) else None
    case Spell => Some(SpellCast(card.description))
    case Weapon => None
  }

  /** `handlePlayCard` as a function of the turn and the player's state: every
      check comes before any change, so a refusal leaves the state as it was;
      a play takes the first hand card with the id out of the hand, puts it on
      the board only when it is a minion, and pays its cost. */
  function Play(turn: Side, p: PlayerState, cardId: string): (r: PlayResult)
    ensures r == Rejected(NotYourTurn) <==> turn != Player
    ensures r == Rejected(CardNotInHand) <==>
              turn == Player && forall k :: 0 <= k < |p.hand| ==> p.hand[k].id != cardId
    ensures r.Rejected? && r.reason.NotEnoughMana? <==>
              turn == Player && IndexOfId(p.hand, cardId) >= 0 &&
              p.hand[IndexOfId(p.hand, cardId)].cost > p.mana
    ensures r.Rejected? && r.reason.NotEnoughMana? ==>
              r.reason == NotEnoughMana(p.hand[IndexOfId(p.hand, cardId)].cost, p.mana)
    ensures r.Played? ==>
              var i := IndexOfId(p.hand, cardId);
              && 0 <= i < |p.hand|
              && r.card == p.hand[i] && r.card.id == cardId
              && r.card.cost <= p.mana
              && r.next.hand == SpliceOne(p.hand, i)
              && |r.next.hand| == |p.hand| - 1
              && multiset(r.next.hand) + multiset{r.card} == multiset(p.hand)
    ensures r.Played? ==>
              && (r.card.cardType == Minion ==> r.next.board == p.board + [r.card])
              && (r.card.cardType != Minion ==> r.next.board == p.board)
    ensures r.Played? ==>
              r.next == p.(hand := r.next.hand, board := r.next.board, mana := p.mana - r.card.cost)
    ensures r.Played? ==> r.event == PlayEventOf(r.card)
  {
    if turn != Player then Rejected(NotYourTurn)
    else
      var cardIndex := IndexOfId(p.hand, cardId);
      if cardIndex == -1 then Rejected(CardNotInHand)
      else
        var card := p.hand[cardIndex];
        if card.cost > p.mana then Rejected(NotEnoughMana(card.cost, p.mana))
        else
          var newBoard := if card.cardType == Minion then p.board + [card] else p.board;
          Played(p.(hand := SpliceOne(p.hand, cardIndex), board := newBoard, mana := p.mana - card.cost),
                 card, PlayEventOf(card))
  }

  /** Mana stays within `0..maxMana` across a play, as long as no card in hand
      has a negative cost. */
  ghost predicate ManaInRange(p: PlayerState) {
    && 0 <= p.mana <= p.maxMana
    && forall c :: c in p.hand ==> c.cost >= 0
  }

  lemma PlayKeepsManaInRange(turn: Side, p: PlayerState, cardId: string)
    requires ManaInRange(p)
    ensures Play(turn, p, cardId).Played? ==> ManaInRange(Play(turn, p, cardId).next)
  {
    var r := Play(turn, p, cardId);
    if r.Played? {
      forall c | c in r.next.hand ensures c.cost >= 0 {
        assert c in multiset(r.next.hand);
        assert c in multiset(p.hand);
      }
    }
  }

  // ---------------------------------------------------------------------------
  // Several plays within one turn
  // ---------------------------------------------------------------------------

  /** The player's clicks during one turn, refused ones included: the final
      state and the cards actually played, in order. */
  function PlayAll(p: PlayerState, cardIds: seq<string>): (PlayerState, seq<Card>)
    decreases |cardIds|
  {
    if cardIds == [] then (p, [])
    else
      match Play(Player, p, cardIds[0])
      case Rejected(_) => PlayAll(p, cardIds[1..])
      case Played(q, card, _) =>
        var (last, played) := PlayAll(q, cardIds[1..]);
        (last, [card] + played)
  }

  function TotalCost(cards: seq<Card>): int {
    if cards == [] then 0 else cards[0].cost + TotalCost(cards[1..])
  }

  /** Over a whole turn the mana spent is exactly the cost of the cards
      played, never more than the mana at the start of the turn, and the
      played cards together with what is left in hand are the original hand. */
  lemma {:induction false} TurnSpendingBounded(p: PlayerState, cardIds: seq<string>)
    requires p.mana >= 0
    ensures var (last, played) := PlayAll(p, cardIds);
            && last.mana == p.mana - TotalCost(played)
            && 0 <= last.mana
            && TotalCost(played) <= p.mana
            && multiset(last.hand) + multiset(played) == multiset(p.hand)
            && last.maxMana == p.maxMana && last.health == p.health && last.deck == p.deck
    decreases |cardIds|
  {
    if cardIds != [] {
      match Play(Player, p, cardIds[0])
      case Rejected(_) =>
        TurnSpendingBounded(p, cardIds[1..]);
      case Played(q, card, _) =>
        TurnSpendingBounded(q, cardIds[1..]);
        var (last, played) := PlayAll(q, cardIds[1..]);
        assert TotalCost([card] + played) == card.cost + TotalCost(played) by {
          assert ([card] + played)[1..] == played;
        }
        assert multiset([card] + played) == multiset{card} + multiset(played);
    }
  }

  // ---------------------------------------------------------------------------
  // Mana regained when the turn comes back
  // ---------------------------------------------------------------------------

  /** `Math.min(maxMana, mana + 1)`. */
  function RegainMana(mana: int, maxMana: int): (m: int)
    ensures m <= maxMana
    ensures mana < maxMana ==> m == mana + 1
    ensures mana >= maxMana ==> m == maxMana
  {
    Min(maxMana, mana + 1)
  }

  /** Mana after `turns` full turn cycles without playing anything. */
  function ManaAfterTurns(mana: int, maxMana: int, turns: nat): int {
    if turns == 0 then mana else RegainMana(ManaAfterTurns(mana, maxMana, turns - 1), maxMana)
  }

  /** Regeneration climbs by one per turn until the cap and then stays there:
      it is not a refill to `maxMana`. */
  lemma {:induction false} ManaClimbsByOnePerTurn(mana: int, maxMana: int, turns: nat)
    requires mana <= maxMana
    ensures ManaAfterTurns(mana, maxMana, turns) == Min(maxMana, mana + turns)
  {
    if turns > 0 {
      ManaClimbsByOnePerTurn(mana, maxMana, turns - 1);
    }
  }

  // ---------------------------------------------------------------------------
  // The component's state
  // ---------------------------------------------------------------------------

  class GameBoard {
    var currentPlayer: Side
    var player: PlayerState
    var opponent: OpponentState
    /** The player state captured by the callback `handleEndTurn` scheduled;
        present exactly while that callback is pending. */
    var pendingTurn: Option<PlayerState>

    /** Mana within bounds, no negative cost in hand, and a scheduled callback
        exactly during the opponent's turn, holding the current player state
        (nothing changes the player while it is the opponent's turn). */
    ghost predicate Valid()
      reads this
    {
      && ManaInRange(player)
      && (currentPlayer == Opponent <==> pendingTurn.Some?)
      && (pendingTurn.Some? ==> pendingTurn.value == player)
    }

    constructor ()
      ensures Valid()
      ensures currentPlayer == Player && pendingTurn == None
      ensures player == InitialPlayer() && opponent == InitialOpponent()
    {
      currentPlayer := Player;
      player := InitialPlayer();
      opponent := InitialOpponent();
      pendingTurn := None;
    }

    /** `handlePlayCard`. */
    method PlayCard(cardId: string) returns (r: PlayResult)
      requires Valid()
      modifies this
      ensures Valid()
      ensures r == Play(old(currentPlayer), old(player), cardId)
      ensures player == (if r.Played? then r.next else old(player))
      ensures r.Played? ==> player.maxMana == old(player.maxMana) && player.mana == old(player.mana) - r.card.cost
      ensures currentPlayer == old(currentPlayer) && opponent == old(opponent) && pendingTurn == old(pendingTurn)
    {
      if currentPlayer != Player {
        return Rejected(NotYourTurn);
      }
      var cardIndex := IndexOfId(player.hand, cardId);
      if cardIndex == -1 {
        return Rejected(CardNotInHand);
      }
      var card := player.hand[cardIndex];
      if card.cost > player.mana {
        return Rejected(NotEnoughMana(card.cost, player.mana));
      }
      var newHand := SpliceOne(player.hand, cardIndex);
      var newBoard := player.board;
      var event := None;
      if card.cardType == Minion {
        newBoard := newBoard + [card];
        if card.rarity == Legendary {
          event := Some(LegendaryPlayed(card.name));
        }
      } else if card.cardType == Spell {
        event := Some(SpellCast(card.description));
      }
      PlayKeepsManaInRange(currentPlayer, player, cardId);
      player := player.(hand := newHand, board := newBoard, mana := player.mana - card.cost);
      r := Played(player, card, event);
    }

    /** `handleEndTurn`, immediate part: on the player's turn, hand the turn to
        the opponent and schedule the callback; otherwise do nothing. */
    method EndTurn()
      requires Valid()
      modifies this
      ensures Valid()
      ensures old(currentPlayer) == Player ==>
                currentPlayer == Opponent && pendingTurn == Some(old(player))
      ensures old(currentPlayer) == Opponent ==>
                currentPlayer == Opponent && pendingTurn == old(pendingTurn)
      ensures player == old(player) && opponent == old(opponent)
    {
      if currentPlayer == Player {
        currentPlayer := Opponent;
        pendingTurn := Some(player);
      }
    }

    /** `handleEndTurn`, deferred part (the callback firing after the delay):
        the turn comes back to the player with one more mana, capped at
        `maxMana`, computed from the captured player state. */
    method OpponentTurnEnds()
      requires Valid()
      requires pendingTurn.Some?
      modifies this
      ensures Valid()
      ensures currentPlayer == Player && pendingTurn == None
      ensures player == old(player).(mana := RegainMana(old(player.mana), old(player.maxMana)))
      ensures player.maxMana == old(player.maxMana) && player.mana <= player.maxMana
      ensures opponent == old(opponent)
    {
      var captured := pendingTurn.value;
      currentPlayer := Player;
      player := captured.(mana := Min(captured.maxMana, captured.mana + 1));
      pendingTurn := None;
    }
  }
}
