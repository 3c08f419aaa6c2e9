# Dixit game engine, modelled in Dafny

This project models `DixitGame`, the engine of a Dixit-style storytelling and
guessing game in game.py. Four to six players share 84 numbered cards. A shuffled
roster fixes the storyteller order. Each player holds a hand of six cards and
the rest form the pile. Each turn runs in this order:

- the storyteller `tell`s a card with a description;
- the others `play` a card face down;
- once the table is full, `get_table` shows the cards in random order;
- the others `vote` for the card they take to be the storyteller's;
- `end_turn` scores the turn, archives it, hands the storytelling to the next
  roster entry and deals one more card to every player.

The model is imperative, like the source. `Game.DixitGame` is a class whose
fields are the roster, pile, hands, rotation cursor, current turn, archive and
cumulative points. Its methods change those fields under `modifies this`, and
the invariant `Valid()` holds across every public operation. The source's
loops are kept as `while` loops with invariants:

- the dealing loop of `_distribute`;
- the six dealing rounds of `__init__`;
- the two scoring loops;
- the Fisher-Yates loop of `random.shuffle`.

Each loop is proved against a reference definition:

- `Dealt` for dealing;
- `Scoring.Delta` for the points of one player in one turn;
- a multiset for shuffling.

Modules:

- `Base`: ids, constants (84 cards, hands of 6, 4 to 6 players), the error
  kinds, `Option`/`Result`/`Outcome` and Python's `list.remove`.
- `Counters`: `collections.Counter` as a map with 0 for a missing key.
- `Shuffling`: `random.shuffle` with its random draws as a parameter.
- `Cards`: the cards of hands and tables as multisets, for card conservation.
- `Scoring`: one turn's scoring, its reference `Delta` and its properties.
- `Rotation`: the `itertools.cycle` storyteller rotation as a cursor.
- `Game`: the `DixitGame` class.

As written, the source crashes on several typos; the model follows the evident
intent. Each such reading is marked "Reading:" in a doc comment:

- game.py:30 names a field that does not exist; the generator of game.py:28
  is meant, so the first storyteller is the first roster entry.
- game.py:82 and 107 name a bare `current_turn`; it is `self.current_turn`.
- The turn is built with key `'votes'` but read back as `'vote'`; one field
  `votes` stands for both.
- game.py:103 writes the vote into the table; it goes into `votes`.
- game.py:87-88 shuffles a dict view, which Python refuses; the values are
  shuffled as a list.
- game.py:98 demands that the voted card be in the voter's hand. See
  "## Findings".

Scoring follows the code's condition at game.py:117: "all votes name the same
card". The comment just above it, at game.py:116, says "all or nobody found the storyteller's
card", which can differ from the code. `Scoring.SplitMissStillPaysStoryteller`
gives an input where it does.

A card is lost when `tell` or `play` is repeated, because the second call
overwrites the table entry (game.py:68, 81). So card conservation is not part
of `Valid()`. It is stated by lemmas on game states given as values:

- `MoveToTable` for placing a card;
- `DealKeepsCards` for dealing;
- `ArchiveKeepsCards` and `EndTurnKeepsCards` for ending a turn.

The states in these lemmas are the ones the methods' postconditions describe.

## Model

| member | source | states |
|---|---|---|
| Game.DixitGame.New | game.py:20-38 | Fails with NumberPlayers exactly when the roster does not have 4, 5 or 6 players. On success: a fresh valid game; the roster is a permutation of the input; the first roster entry tells first; the archive and points are empty; every player holds 6 cards; 84 - 6n cards stay in the pile; pile and hands together are exactly the cards 1..84. |
| Game.DixitGame.Init | game.py:24-38 | Given a roster and a pile already shuffled: the game is valid, the cursor is 0 and the first turn is open for `roster[0]`. Every hand holds 6 cards, the pile holds 84 - 6n, and all the game's cards are exactly 1..84. The GameEndedError of `_distribute` never fires during construction: the contract has no error case. |
| Game.DixitGame.DealRounds | game.py:37-48 | Six dealing rounds on empty hands, each one the dealing step of `_distribute`. The guard of game.py:44 never fires, since six rounds for at most six players take at most 36 of the 84 cards. At the end every roster player holds 6 cards, 84 - 6n stay in the pile, and pile plus hands are exactly the shuffled pile. |
| Game.DixitGame.RoundStep | game.py:37-48 | One round on hands of size k leaves every hand with k + 1 cards and keeps the pile and hands' cards. |
| Game.DixitGame.DealtSizes | game.py:46-48 | One round adds exactly one card to every roster player's hand. |
| Game.DixitGame.Distribute | game.py:40-48 | All or nothing. It fails with GameEnded exactly when the pile has fewer cards than players, and then pile and hands are unchanged. Otherwise the last n cards leave the pile and go to the hands in roster order. Roster, rotation, turn, archive and points never change. |
| Game.DixitGame.Deal | game.py:46-48 | The dealing loop: the pile loses its last n cards and the hands become `Dealt`. |
| Game.DixitGame.Dealt | game.py:46-48 | Dealing to a prefix of the roster keeps the set of hand owners. |
| Game.DixitGame.DealtHands | game.py:46-48 | Player j of the first i receives the (j+1)-th card from the end of the pile. Every other hand, including hands of players outside the roster, is untouched. |
| Game.DixitGame.DealtLoose | game.py:46-48 | Dealing only moves cards from the pile into hands: the multiset of pile plus hands is unchanged. |
| Game.DixitGame.DealtStep | game.py:47-48 | One pop-and-append step keeps the multiset of pile plus hands. |
| Game.DixitGame.DealOne | game.py:47-48 | Moving the last pile card into one hand keeps the multiset of pile plus hands. |
| Game.DixitGame.DealKeepsCards | game.py:40-48 | A successful `_distribute` keeps every card of the game: pile, hands, table and archive together. |
| Game.DixitGame.SanityCheck | game.py:50-55 | Passes exactly when the player is in the game and, if a card is given, holds it. Fails with UnknownPlayer for an unknown player, and otherwise with CardNotInHand. |
| Game.DixitGame.GetHand | game.py:57-59 | Fails with UnknownPlayer exactly for an unknown player; otherwise returns that player's hand. |
| Game.DixitGame.HandCardIsPrivate | game.py:57-59 | While the cards are conserved, a card in a returned hand is one of 1..84. It is in no other hand, not in the pile and not on any table. |
| Game.DixitGame.SanityCheckRejectsTableCards | game.py:98 | While the cards are conserved, the check as written rejects every card lying on the table, whoever votes. |
| Game.DixitGame.Tell | game.py:61-68 | The checks fire in the source's order: unknown player, then card not in hand, then not the storyteller. Any failure changes nothing. On success the card leaves the storyteller's hand (first occurrence), becomes their table card and the description is set. Nothing else changes. |
| Game.DixitGame.PlaceCard | game.py:65-68 | The card leaves the player's hand and becomes the player's table entry; the rest of the state is unchanged. |
| Game.DixitGame.MoveToTable | game.py:65-68 | Moving a card from a hand to the table keeps the game's cards, apart from the card the player already had on the table, which leaves the game. With no earlier entry, pile + hands + table + archive is unchanged. |
| Game.DixitGame.Play | game.py:70-82 | Fails with UnknownPlayer, then CardNotInHand, then StorytellerCannotPlay, and changes nothing on failure. On success the card moves from the hand to the table, and the result is true exactly when every player has a table card. |
| Game.DixitGame.FullTableIsRoster | game.py:82 | On a roster without repeats, the table has n entries exactly when every player has one. |
| Game.DixitGame.GetTable | game.py:84-89 | Fails with NotReadyToVote exactly when the table is not full. Otherwise it returns the table's cards, each as often as it lies there, in some order: exactly the cards on the table. |
| Game.TableList | game.py:87 | The table's cards as a list: as a multiset it is the table's cards, and a card is in it exactly when some player put it on the table. |
| Game.DixitGame.TableCardsSize | game.py:85-87 | A full table holds exactly n cards. |
| Game.DixitGame.Vote | game.py:91-104 | Checks in order: unknown player, card not on the table, storyteller, voter without a table card (KeyError), vote for one's own card. Any failure changes nothing. Otherwise the vote is recorded, replacing an earlier one, and the result is true exactly when every player but the storyteller has voted. |
| Game.DixitGame.AllVotedIsOthers | game.py:104 | n - 1 votes by non-storytellers means every player but the storyteller has voted. |
| Game.DixitGame.ScoreTurn | game.py:107-132 | Fails with CardsMissing before the table is full, then with VotesMissing before n - 1 votes, then with OwnerNotUnique. Otherwise it returns a Counter giving every player `Scoring.Delta` points. |
| Game.DixitGame.UpdatePointsWithCurrentTurn | game.py:106-134 | Fails exactly when scoring does, and then changes nothing. On success the turn's Counter gives every player `Delta` points and is stored in the turn; the cumulative points grow by it pointwise. |
| Game.DixitGame.EndTurn | game.py:136-149 | A scoring failure changes nothing. Otherwise, in order: the scored turn is appended to the archive, and a fresh turn opens for the next storyteller of the rotation (cursor + 1, wrapping). Then one round is dealt, or GameEnded is raised with pile and hands unchanged and the turn already archived. Points never decrease, and the last-turn summary returns the archived turn. |
| Game.DixitGame.Archive | game.py:140-147 | The scored turn joins the archive. The cursor moves one step, wrapping after the last roster entry, and a fresh empty turn opens for the storyteller of the rotation. |
| Game.DixitGame.ArchiveKeepsCards | game.py:140-147 | Archiving a turn and opening an empty table keeps every card of the game. |
| Game.DixitGame.EndTurnKeepsCards | game.py:136-149 | `end_turn` keeps every card of the game, whether the final deal happens or GameEnded leaves pile and hands alone. |
| Game.ChronicleTurns | game.py:140-147 | Every archived turn i was told by the rotation's storyteller for turn i and carries its points. |
| Game.DixitGame.LastTurnSummary | game.py:151-153 | Fails (IndexError) exactly when no turn is archived. Otherwise returns the last archived turn's points, table and votes. |
| Game.DixitGame.GetStats | game.py:155-158 | The cumulative points, with only positive counts stored. |
| Scoring.ComputeTurnPoints | game.py:111-132 | With the table full and all votes in, fails with OwnerNotUnique exactly on a split vote where some missed vote names a card without a unique owner. Otherwise every player's points equal `Delta`. |
| Scoring.PayEveryVoter | game.py:117-119 | The unanimous branch: every player other than the storyteller gets 2; nobody else gets anything. |
| Scoring.PaySplitVotes | game.py:120-132 | The split branch: fails exactly when some missed vote names a card without a unique owner. Otherwise it gives 3 to the storyteller, 3 to each voter who found the storyteller's card, and 1 to the unique owner of each other voted card. |
| Scoring.PartialStep | game.py:122-132 | One loop iteration for voter o adds exactly 3 to o if o found the storyteller's card, and otherwise 1 to the unique owner of the voted card. |
| Scoring.StorytellerScore | game.py:117-121 | The storyteller gets 0 when all votes name one card, and exactly 3 otherwise. |
| Scoring.VoterScore | game.py:117-132 | A non-storyteller who owns their card alone gets 2 when all votes name one card. Otherwise they get 3 for finding the storyteller's card plus 1 per vote for their own card. |
| Scoring.EveryoneFound | game.py:116-119 | When every other player found the storyteller's card, the votes are unanimous: each voter gets 2 and the storyteller 0. |
| Scoring.SplitMissStillPaysStoryteller | game.py:116-121 | On a concrete turn where nobody finds the storyteller's card but the votes are split, the storyteller still gets 3. |
| Counters.Inc | game.py:117-132 | `c[k] += d` raises k's count by d, leaves every other count alone and keeps the counts positive. |
| Counters.Add | game.py:133 | `a += b` adds pointwise and stores only positive counts. |
| Shuffling.Shuffle | game.py:23-26 | The result is a permutation of the input. |
| Rotation.Cursor | game.py:28 | The storyteller position is always a roster index. |
| Rotation.CursorIsMod | game.py:28 | Turn k is told by roster entry k mod n. |
| Rotation.EveryPlayerTellsOncePerRound | game.py:28 | In any n consecutive turns every player tells exactly once. |
| Cards.AllCards | game.py:25 | The fresh pile: 84 distinct cards, exactly 1..84. |
| Cards.HandsCardsUpdate | game.py:65 | Replacing one player's hand swaps that hand's cards for the new ones in the multiset of all hands. |
| Cards.HandsCardsOutside | game.py:65 | Changing the hand of a player outside the roster leaves the roster's cards alone. |
| Cards.TableCardsUpdate | game.py:68 | `table[p] = c` adds c to the table's cards and removes the card p had there, if any. |
| Cards.TableCardsUpdateLater | game.py:68 | The inductive step of `TableCardsUpdate` for a player further down the roster. |
| Cards.TableCardsOutside | game.py:68 | Placing a card for a player outside the roster leaves the roster's table cards alone. |
| Cards.PermutationKeepsDistinct | game.py:23 | Shuffling a roster without repeats keeps it without repeats and with the same players. |
| Cards.CardInHandIsUnique | game.py:25-27 | While the cards are conserved, a card in a hand is one of 1..84 and occurs once in that hand. It is in no other hand, not in the pile and nowhere else. |
| Base.RemoveFirst | game.py:65 | `list.remove`: the result is the input with its FIRST occurrence of the element cut out and every other element kept in order; hence one element fewer and, as a multiset, exactly that element less. |
| Base.RemoveFirstElements | game.py:114-115 | Removing the storyteller from a roster without repeats leaves exactly the other players, without repeats. |

## Left out

- app.py is not part of this model: the web handlers, sessions, display names, the game registry and its lock.
- Shuffling.Shuffle: the quality of randomness is not modelled. The draws are a parameter and the contract promises only a permutation.
- Game.DixitGame.New: the source shuffles the caller's list in place (game.py:23) and keeps it as its roster, so the caller sees the reordering. The model returns the shuffled roster inside the new game and does not model that aliasing.
- Game.DixitGame.New: requires distinct player ids. The source does not check this; duplicate ids would share one hand.
- Exception messages are not modelled, only the kind of error. The source raises one `ValueError` class for several checks; the model gives each check its own error kind.
- The turn description is any string; none of its content is checked, as in the source.
- Game.DixitGame.Init: deals its six rounds by the dealing step of `Distribute` applied to values (`Deal`), not by calling `Distribute` on the half-built object. The GameEndedError branch cannot fire there (`DealingsAtMost`).
- Game.DixitGame.Tell, Game.DixitGame.Play, Game.DixitGame.Distribute and Game.DixitGame.EndTurn: their postconditions give the new state exactly but do not restate card conservation. Conservation is proved about those states in `MoveToTable`, `DealKeepsCards` and `EndTurnKeepsCards`.
- No phase, lobby or double-`tell`/`play` guard is added, since the source has none. A repeated `tell` or `play` loses a card, as `MoveToTable` states.
- Python's exceptions become `Result`/`Outcome` values.

## Findings

| source | as written | input that shows it | evidently intended | confidence | as-written member | corrected member |
|---|---|---|---|---|---|---|
| game.py:98 | `vote` calls `_sanity_check(id_player, id_card)`, which demands the voted card be in the voter's own hand | any game right after construction in which the storyteller has told and the other players have played: every card a voter could vote for lies on the table, so no hand holds it and every vote is rejected with "Card not in player's hand" | the voted card must lie on the table | high; not executed | Game.DixitGame.SanityCheckRejectsTableCards | Game.DixitGame.Vote |
