# Card game rules core in Dafny

This project models the rules of a browser card game and proves properties of
them. The game has three screens, each a React component that keeps its state
in hooks and updates it in event handlers:

- **The deck builder** (`DeckBuilder.tsx`). It edits one deck at a time and
  keeps a list of stored decks. It covers:
  - adding a card, under the 20-card limit and the copy limits (one copy of a
    legendary card, two of any other);
  - removing a card by position, with `splice`;
  - saving, which needs at least ten cards and either appends a new deck under
    a fresh id or replaces the stored copy;
  - switching decks, renaming (a blank name after trimming is ignored) and
    clearing;
  - the group-by-id reduce that lists the deck.
- **The game board** (`GameBoard.tsx`). It plays a card from the player's hand
  and ends the turn. Playing a card checks the turn, that the card is in hand
  and that there is enough mana. The card then leaves the hand, goes to the
  board if it is a minion, and its cost is paid. Ending the turn has two parts.
  The turn passes to the opponent at once. A callback that fires later gives
  the turn back with one more mana, capped at `maxMana`.
- **The lobby** (`GameLobby.tsx`). It creates a two-player room named with the
  trimmed input and puts it at the front of the list. It joins a room if the
  room is not full and is still waiting. A periodic timer adds a random friend
  to a random room when that room has space, is waiting and does not already
  list that friend.

Each component is a class whose fields are the component's state. The
handlers are methods, and their `ensures` clauses give the whole new state.
Each class's `Valid` invariant holds after every handler. For the deck
builder, this invariant says that every deck, stored or being edited, is drawn
from the card collection and is legal.
Each rule is a pure function (`CheckAdd`, `Play`, `CheckJoin`,
`AddPlayerToRooms`, …). Lemmas prove what the rules guarantee:

- every deck the editor holds stays legal, whatever the sequence of handlers;
- mana stays in range;
- a turn never spends more mana than it started with;
- rooms never overfill and, under the simulated join, never list a player twice.

The JavaScript built-ins whose edge cases matter are written out in
`builtins.dfy`: `Array.prototype.splice(i, 1)`, with negative and out-of-range
indices, and `String.prototype.trim`, with the ECMAScript white-space set.

Files: `builtins.dfy` (module `Builtins`), `cards.dfy` (`Cards`), `decks.dfy`
(`Decks`), `match.dfy` (`Match`), `lobby.dfy` (`Lobby`).

Note what the code does:

- Weapon cards are not placed on the board. Only minions are.
- When the turn comes back, mana rises by one, up to `maxMana`. `maxMana`
  itself never grows, and mana is not refilled to it.
- The deck counts as full at 20 cards or more.
- The deferred end-of-turn callback cannot be cancelled.

## Model

| member | source | states |
|---|---|---|
| Builtins.Min | src/components/game/GameBoard.tsx:137 | `Math.min`: the result is one of the two arguments and is at most each of them |
| Builtins.SpliceStart | src/components/game/DeckBuilder.tsx:126-127 | the index `splice` starts at: a negative start counts from the end and is clamped at 0, and a start past the end is clamped to the length |
| Builtins.SpliceOne | src/components/game/DeckBuilder.tsx:126-127 | `splice(start, 1)` on a copy: when the start is in range, one element fewer, the same multiset less that element, the prefix kept and the suffix shifted down; otherwise the list unchanged |
| Builtins.SpliceRemovesExactlyIndex | src/components/game/DeckBuilder.tsx:125-132 | for an index in range, the spliced list is exactly `s[..i] + s[i+1..]` |
| Builtins.TrimStart | src/components/game/DeckBuilder.tsx:184 | leading white space removed: the result is a suffix, every dropped character is white space, and the result does not start with white space |
| Builtins.TrimEnd | src/components/game/DeckBuilder.tsx:184 | trailing white space removed: the result is a prefix, every dropped character is white space, and the result does not end with white space |
| Builtins.Trim | src/components/game/DeckBuilder.tsx:184 | a non-empty trimmed string neither starts nor ends with white space, and is no longer than the input |
| Builtins.TrimBlankIff | src/components/game/DeckBuilder.tsx:184 | `s.trim() === ''` holds exactly when every character of `s` is white space (both directions) |
| Builtins.TrimIsSlice | src/components/game/GameLobby.tsx:142 | the trimmed name stored in a room is a contiguous piece of what was typed, and everything cut off before and after it is white space |
| Builtins.TrimIdempotent | src/components/game/GameLobby.tsx:131-142 | trimming an already trimmed name changes nothing |
| Cards.FilterById | src/components/game/DeckBuilder.tsx:92 | `filter(c => c.id === id)` keeps exactly the cards of the list with that id; a one-card list is kept or dropped whole |
| Cards.FilterByIdKeepsCopies | src/components/game/DeckBuilder.tsx:92 | the filter keeps every copy: each card with the id occurs in the result as often as in the list, and no other card occurs |
| Cards.CountById | src/components/game/DeckBuilder.tsx:92 | `filter(...).length` is at most the list's length, and is zero exactly when no card has the id |
| Cards.FilterByIdConcat | src/components/game/DeckBuilder.tsx:92-117 | filtering by id distributes over the concatenation the add handler performs |
| Cards.CountByIdAppend | src/components/game/DeckBuilder.tsx:92-117 | appending a card adds one copy to its own id and none to any other id |
| Cards.CountByIdSplice | src/components/game/DeckBuilder.tsx:125-132 | splicing one card out never increases the copy count of any id |
| Cards.IndexOfId | src/components/game/GameBoard.tsx:74-75 | `findIndex`: -1 exactly when no card has the id, otherwise the first position holding it |
| Cards.DrawnFromCatalogIsConsistent | src/components/game/DeckBuilder.tsx:92-112 | cards drawn from a catalog with distinct ids agree on rarity per id, which is what the copy limits rely on |
| Cards.CardCollectionUniqueIds | src/components/game/DeckBuilder.tsx:29-42 | the collection has twelve cards with distinct ids |
| Cards.CardCollectionCostsNonNegative | src/components/game/DeckBuilder.tsx:29-42 | no card of the collection has a negative cost |
| Cards.SliceKeepsUniqueIds | src/components/game/DeckBuilder.tsx:45-48 | a `slice` of a list with distinct ids has distinct ids |
| Decks.CheckAdd | src/components/game/DeckBuilder.tsx:81-112 | the add handler's three refusals, each as an if-and-only-if in the handler's order; a card is accepted exactly when the deck has fewer than 20 cards and the card is below its rarity's copy limit |
| Decks.AddKeepsDeckLegal | src/components/game/DeckBuilder.tsx:81-117 | an accepted addition keeps the deck within 20 cards and within every copy limit, when all copies of an id share a rarity |
| Decks.AddKeepsSoundDeck | src/components/game/DeckBuilder.tsx:81-117 | adding an accepted catalog card to a legal deck drawn from a catalog with distinct ids gives a legal deck drawn from the catalog, with no extra hypothesis |
| Decks.RemoveKeepsSoundDeck | src/components/game/DeckBuilder.tsx:125-132 | removing at any index keeps a deck drawn from the catalog and legal |
| Decks.RemoveKeepsDeckLegal | src/components/game/DeckBuilder.tsx:125-132 | removing at any index, with splice's clamping, keeps a legal deck legal |
| Decks.DistinctIdsCountOne | src/components/game/DeckBuilder.tsx:92 | in a list with distinct ids, every card's copy count is one |
| Decks.NoCopies | src/components/game/DeckBuilder.tsx:92 | the copy count of an id that no card has is zero |
| Decks.CatalogSliceLegal | src/components/game/DeckBuilder.tsx:45-48 | a slice of at most 20 cards from a catalog with distinct ids is a legal, rarity-consistent deck |
| Decks.SampleDecksLegal | src/components/game/DeckBuilder.tsx:45-48 | both sample decks are legal and rarity-consistent |
| Decks.GroupById | src/components/game/DeckBuilder.tsx:323-326 | every group of the reduce is non-empty and holds only cards of the deck with the group's id |
| Decks.GroupByIdIsFilter | src/components/game/DeckBuilder.tsx:322-327 | the reduce has a group exactly for the ids in the deck, and each group equals `filter` for that id: every copy, in deck order |
| Decks.FindDeck | src/components/game/DeckBuilder.tsx:174 | `decks.find`: none exactly when no stored deck has the id, otherwise a stored deck with that id |
| Decks.FindDeckFirst | src/components/game/DeckBuilder.tsx:174 | `find` returns the first deck with the id |
| Decks.FindDeckUnique | src/components/game/DeckBuilder.tsx:174 | with distinct ids, `find` returns the one deck stored under the id |
| Decks.ReplaceDeck | src/components/game/DeckBuilder.tsx:158-160 | the `map` in the update branch replaces the entries with the deck's id and keeps every other entry in place |
| Decks.RenameDeckIn | src/components/game/DeckBuilder.tsx:195-197 | the `map` in the rename handler changes only the name of the matching entries and keeps their ids and stored cards |
| Decks.RenameKeepsStoreShape | src/components/game/DeckBuilder.tsx:193-198 | renaming keeps each position's id and cards, keeps distinct ids distinct, and keeps every lookup's outcome |
| Decks.ReplacedDeckIsFound | src/components/game/DeckBuilder.tsx:156-160 | after an update, the deck's id finds the saved contents, and ids stay distinct and in place |
| Decks.AppendedDeckIsFound | src/components/game/DeckBuilder.tsx:144-151 | a new deck appended under a fresh id is found under that id, and ids stay distinct |
| Decks.DeckBuilder.constructor | src/components/game/DeckBuilder.tsx:29-66 | the editor starts on the empty "new" deck with the sample decks stored and the card collection offered; all of them satisfy the invariant |
| Decks.DeckBuilder.AddCard | src/components/game/DeckBuilder.tsx:81-123 | for a card of the collection: returns `CheckAdd`'s verdict; on acceptance the card is appended and nothing else changes; on refusal nothing changes; the deck is legal afterwards |
| Decks.DeckBuilder.RemoveCard | src/components/game/DeckBuilder.tsx:125-132 | the current deck's cards become the spliced list (exactly element `index` gone when in range); stored decks unchanged; the deck is legal afterwards |
| Decks.DeckBuilder.SaveDeck | src/components/game/DeckBuilder.tsx:134-166 | under ten cards nothing changes; a "new" deck is appended under the fresh id and becomes current; a stored deck replaces its entry; after a save the current deck is found under its id |
| Decks.DeckBuilder.ChangeDeck | src/components/game/DeckBuilder.tsx:168-181 | "new" starts an empty deck; a stored id loads that deck; an unknown id changes nothing; stored decks unchanged |
| Decks.DeckBuilder.RenameDeck | src/components/game/DeckBuilder.tsx:183-199 | a blank name changes nothing; otherwise the current deck takes the untrimmed name, and a stored deck's entry is renamed with its stored cards kept |
| Decks.DeckBuilder.ClearDeck | src/components/game/DeckBuilder.tsx:201-211 | the current deck keeps its id and name and loses all cards; stored decks unchanged |
| Match.PlayEventOf | src/components/game/GameBoard.tsx:94-113 | a legendary minion is announced, a spell surfaces its description, and anything else is silent, each as an if-and-only-if |
| Match.Play | src/components/game/GameBoard.tsx:64-121 | each refusal as an if-and-only-if (wrong turn, card not in hand, not enough mana, the last carrying the card's cost and the mana on hand); a play removes the first card with the id from the hand (a multiset split), appends it to the board exactly when it is a minion, deducts its cost, and changes nothing else |
| Match.PlayKeepsManaInRange | src/components/game/GameBoard.tsx:79-121 | with no negative costs in hand, mana stays within `0..maxMana` across a play |
| Match.TurnSpendingBounded | src/components/game/GameBoard.tsx:64-121 | over any sequence of clicks in a turn, the mana spent equals the cost of the cards played and never exceeds the mana at the start; the played cards plus the hand left are the original hand |
| Match.RegainMana | src/components/game/GameBoard.tsx:137 | mana goes up by one below the cap and is held at `maxMana` at or above it |
| Match.ManaClimbsByOnePerTurn | src/components/game/GameBoard.tsx:128-145 | after `n` turn cycles without plays, mana is `min(maxMana, mana + n)`: it climbs by one per turn and is not refilled |
| Match.GameBoard.constructor | src/components/game/GameBoard.tsx:27-62 | the board starts on the player's turn with the sample player and opponent states and no pending callback |
| Match.GameBoard.PlayCard | src/components/game/GameBoard.tsx:64-126 | the result is `Play` of the old state; the player state becomes the played state or is left as it was; the turn, the opponent and the pending callback are unchanged |
| Match.GameBoard.EndTurn | src/components/game/GameBoard.tsx:128-131 | on the player's turn, the turn passes to the opponent and the callback is scheduled with the player state it captures; otherwise nothing changes |
| Match.GameBoard.OpponentTurnEnds | src/components/game/GameBoard.tsx:132-143 | the callback gives the turn back to the player and sets mana to `Math.min(maxMana, mana + 1)` of the captured state; everything else is kept |
| Lobby.IsMember | src/components/game/GameLobby.tsx:242 | `players.some(p => p.id === id)` holds exactly when a listed player has the id |
| Lobby.MembershipAfterJoin | src/components/game/GameLobby.tsx:242-249 | after a player is appended to a room, the members are exactly the old members and the new player |
| Lobby.CheckJoin | src/components/game/GameLobby.tsx:172-189 | the join handler refuses a full room first, then a room that is not waiting, each as an if-and-only-if; it accepts exactly a waiting room with space |
| Lobby.AddPlayerToRooms | src/components/game/GameLobby.tsx:192-200 | the rooms with the id gain the player at the end of their list; every other room is left as it was |
| Lobby.JoinChangesOneRoomWithinCapacity | src/components/game/GameLobby.tsx:172-202 | with distinct room ids, an accepted join changes exactly the joined room, keeps ids distinct and overfills no room |
| Lobby.SimulatedJoinAllowed | src/components/game/GameLobby.tsx:232-244 | the timer's guard holds exactly when both random indices point into their lists, the room passes `CheckJoin`, and the room does not list the friend (both directions) |
| Lobby.SimulatedJoinKeepsRoomsSound | src/components/game/GameLobby.tsx:237-255 | a simulated join keeps room ids distinct, overfills no room and never lists a player twice in a room |
| Lobby.JoinOwnRoomListsHostTwice | src/components/game/GameLobby.tsx:172-200 | the join handler has no membership check: the host can join their own fresh room and be listed twice |
| Lobby.SampleRoomsSound | src/components/game/GameLobby.tsx:47-87 | the sample rooms have distinct ids, are within capacity, list no player twice, and only "r2" accepts a join |
| Lobby.GameLobby.constructor | src/components/game/GameLobby.tsx:105-106 | the lobby starts with the sample rooms and the sample friends |
| Lobby.GameLobby.CreateGame | src/components/game/GameLobby.tsx:130-170 | a blank name changes nothing; otherwise a waiting two-player room hosted and joined by the local player, named with the trimmed name, keyed by the fresh id and created "just now", goes to the front of the list; room ids stay distinct |
| Lobby.GameLobby.JoinGame | src/components/game/GameLobby.tsx:172-212 | returns `CheckJoin`'s verdict; on acceptance the local player is added to that room and to no other; on refusal nothing changes |
| Lobby.GameLobby.SimulatePlayerJoin | src/components/game/GameLobby.tsx:228-266 | one firing of the timer: the friend joins exactly when `SimulatedJoinAllowed` holds, and then only that room changes; distinct membership is kept |

## Left out

- Rendering, styling, search and filter boxes, dialogs, tabs and the other
  view-only state (`searchTerm`, filters, `selectedCard`, `deckNameInput`
  editing flags, `isCreateGameOpen`, `selectedRoom`) are not modelled. The
  handlers take the typed input as a parameter.
- Toasts are not modelled as side effects. The refusals and notable events
  they announce are returned as tags (`AddRejection`, `SaveOutcome`,
  `PlayRejection`, `PlayEvent`, `JoinRejection`).
- Ids built from `Date.now()` are a `freshId` parameter. `SaveDeck` and
  `CreateGame` require it to be unused. The clock is not modelled.
- `Math.random()` is not modelled. The simulated join takes the room and friend
  indices as inputs. The 30% chance that a tick acts, the 15-second interval
  and its clearing are left out. A tick that does not act is simply not called.
- The timers are left out:
  - the 2-second delay before the opponent's turn ends is modelled only as the
    separate step `OpponentTurnEnds`;
  - the 500 ms animation flag `isAnimating` is not modelled;
  - the quick-match timeout (`GameLobby.tsx`, in the Quick Match button's
    handler) only shows toasts and calls `onJoinGame('quick-match')`; it
    changes no lobby state.
- The `onCreateGame` and `onJoinGame` callback props are calls into code that
  is not part of this model.
- The opponent's hand holds only `null` placeholders, so it is kept as a count.
- The sort by cost that orders the grouped deck list is display only.
  `GroupById` models the reduce before it.
- Card images, the `image` URL and the view-only card props are not part of
  the card record.
- The page wrappers, the landing page, the theme toggle and the router (`App.tsx`,
  `pages/`, `LandingPage.tsx`, `ThemeToggle.tsx`) are not part of this model.
- `Lobby.GameLobby.JoinGame`: requires the room to be an element of the
  current list, as it is for every call the lobby makes. A stale room object
  from an earlier render is not modelled.
- `Decks.DeckBuilder.AddCard`: requires the card to be a card of the
  collection. The only caller is the collection grid's "Add to Deck" button,
  which passes a card of the filtered collection.
- `Decks.AddKeepsDeckLegal`: keeps copy limits only when every copy of an id
  has the same rarity. The handler checks the rarity of the card being added,
  not of the copies already in the deck. `Decks.AddKeepsSoundDeck` shows that
  decks drawn from the collection always meet this condition.
