/**
 * The `DixitGame` engine of game.py: a shuffled roster that fixes the
 * storyteller order, a pile of card ids, one hand per player, the current
 * turn (storyteller, table, description, votes) and the archive of past
 * turns with the cumulative points.
 *
 * The source as written does not run; the model follows the evident intent
 * and each such reading is marked "Reading:" where it applies.
 */
module Game {
  import opened Base
  import opened Counters
  import opened Cards
  import Shuffling
  import Scoring
  import Rotation

  /**
   * The turn dict of game.py:29-34. `points` is absent until the turn is
   * scored (game.py:134).
   * Reading: the dict is built with key 'votes' but read as 'vote'; one
   * field `votes` stands for both.
   */
  datatype Turn = Turn(storyteller: PlayerId, table: map<PlayerId, Card>, description: Option<string>,
                       votes: map<PlayerId, Card>, points: Option<Counter>)

  /** A turn just opened for storyteller `st`. */
  function OpenTurn(st: PlayerId): Turn
  {
    Turn(st, map[], None, map[], None)
  }

  /** The cards on the tables of archived turns. */
  function ArchivedCards(ps: seq<PlayerId>, past: seq<Turn>): multiset<Card>
  {
    if past == [] then multiset{}
    else ArchivedCards(ps, past[..|past| - 1]) + TableCards(ps, past[|past| - 1].table)
  }

  /**
   * The table's cards as a list, in roster order: `table.values()`.
   * Reading: game.py:87-88 shuffles a dict view, which Python refuses; the
   * evident intent is to shuffle a list of the values.
   */
  function TableList(ps: seq<PlayerId>, table: map<PlayerId, Card>): (r: seq<Card>)
    ensures multiset(r) == TableCards(ps, table)
    ensures forall c :: c in r <==> exists p :: p in ps && p in table && table[p] == c
  {
    if ps == [] then []
    else
      var rest := TableList(ps[1..], table);
      assert forall p :: p in ps <==> p == ps[0] || p in ps[1..];
      if ps[0] in table then [table[ps[0]]] + rest else rest
  }

  /**
   * The archive is in rotation order and every archived turn was scored:
   * turn i was told by the storyteller the rotation gives for turn i.
   */
  ghost predicate Chronicle(ps: seq<PlayerId>, past: seq<Turn>)
    requires ps != []
  {
    past == [] ||
    (Chronicle(ps, past[..|past| - 1]) && past[|past| - 1].storyteller == Rotation.StorytellerAt(ps, |past| - 1)
     && past[|past| - 1].points.Some?)
  }

  /** Every turn of a chronicle was told in rotation order and scored. */
  lemma {:induction false} ChronicleTurns(ps: seq<PlayerId>, past: seq<Turn>, i: nat)
    requires ps != [] && Chronicle(ps, past) && i < |past|
    ensures past[i].storyteller == Rotation.StorytellerAt(ps, i) && past[i].points.Some?
  {
    if i < |past| - 1 {
      ChronicleTurns(ps, past[..|past| - 1], i);
    }
  }

  class DixitGame {
    /** `ids_players`, after the shuffle. */
    var players: seq<PlayerId>
    var pile: seq<Card>
    var hands: map<PlayerId, seq<Card>>
    /** The position `cycle(ids_players)` last yielded: the current storyteller. */
    var cursor: nat
    var current: Turn
    var pastTurns: seq<Turn>
    /** Cumulative points, a Counter. */
    var points: Counter

    /** The invariant every public operation keeps. */
    ghost predicate Valid()
      reads this
    {
      && MIN_PLAYERS <= |players| <= MAX_PLAYERS
      && Distinct(players)
      && hands.Keys == Elements(players)
      && cursor == Rotation.Cursor(|pastTurns|, |players|)
      && current.storyteller == players[cursor]
      && current.table.Keys <= Elements(players)
      && current.votes.Keys <= Elements(players) - {current.storyteller}
      && Positive(points)
      && Chronicle(players, pastTurns)
    }

    /** Every card the game knows of, wherever it is. */
    ghost function CardsInPlay(): multiset<Card>
      reads this
    {
      Total(pile, players, hands, current.table, pastTurns)
    }

    /** The cards of a game state given by its parts: loose cards, then placed ones. */
    static ghost function Total(pile: seq<Card>, ps: seq<PlayerId>, hands: map<PlayerId, seq<Card>>,
                                table: map<PlayerId, Card>, past: seq<Turn>): multiset<Card>
    {
      Loose(pile, ps, hands) + Placed(ps, table, past)
    }

    /** The cards in the pile and in the hands. */
    static ghost function Loose(pile: seq<Card>, ps: seq<PlayerId>, hands: map<PlayerId, seq<Card>>): multiset<Card>
    {
      multiset(pile) + HandsCards(ps, hands)
    }

    /** The cards on the current table and on archived ones. */
    static ghost function Placed(ps: seq<PlayerId>, table: map<PlayerId, Card>, past: seq<Turn>): multiset<Card>
    {
      TableCards(ps, table) + ArchivedCards(ps, past)
    }

    /**
     * Moving card `c` from the hand of `p` to the table: `c` changes place,
     * and a card `p` had already put on the table leaves the game.
     */
    static lemma MoveToTable(pile: seq<Card>, ps: seq<PlayerId>, hands: map<PlayerId, seq<Card>>,
                             table: map<PlayerId, Card>, past: seq<Turn>, p: PlayerId, c: Card)
      requires Distinct(ps) && p in ps && p in hands && c in hands[p]
      ensures Total(pile, ps, hands[p := RemoveFirst(hands[p], c)], table[p := c], past) + Slot(table, p)
           == Total(pile, ps, hands, table, past)
    {
      var h, h' := hands[p], RemoveFirst(hands[p], c);
      HandsCardsUpdate(ps, hands, p, h');
      TableCardsUpdate(ps, table, p, c);
      var H, H' := HandsCards(ps, hands), HandsCards(ps, hands[p := h']);
      var T, T' := TableCards(ps, table), TableCards(ps, table[p := c]);
      var A, S := ArchivedCards(ps, past), Slot(table, p);
      assert H' + multiset(h) == H + multiset(h');
      assert T' + S == T + multiset{c};
      assert multiset(h') + multiset{c} == multiset(h);
      calc {
        (H' + T' + S) + multiset(h);
        (H' + multiset(h)) + (T' + S);
        (H + multiset(h')) + (T + multiset{c});
        (H + T) + (multiset(h') + multiset{c});
        (H + T) + multiset(h);
      }
      MultisetCancel(H' + T' + S, H + T, multiset(h));
      var P := multiset(pile);
      calc {
        Total(pile, ps, hands[p := h'], table[p := c], past) + S;
        (P + H') + (T' + A) + S;
        P + (H' + T' + S) + A;
        P + (H + T) + A;
        (P + H) + (T + A);
        Total(pile, ps, hands, table, past);
      }
    }

    static lemma MultisetCancel(a: multiset<Card>, b: multiset<Card>, x: multiset<Card>)
      requires a + x == b + x
      ensures a == b
    {
      forall c ensures a[c] == b[c] {
        assert (a + x)[c] == (b + x)[c];
      }
    }

    /** Dealing the last pile card to `p` keeps the loose cards. */
    static lemma DealOne(pile: seq<Card>, ps: seq<PlayerId>, hands: map<PlayerId, seq<Card>>, p: PlayerId)
      requires Distinct(ps) && p in ps && p in hands && pile != []
      ensures Loose(pile[..|pile| - 1], ps, hands[p := hands[p] + [pile[|pile| - 1]]]) == Loose(pile, ps, hands)
    {
      var card, h := pile[|pile| - 1], hands[p];
      assert pile == pile[..|pile| - 1] + [card];
      HandsCardsUpdate(ps, hands, p, h + [card]);
      var P, P' := multiset(pile), multiset(pile[..|pile| - 1]);
      var H, H' := HandsCards(ps, hands), HandsCards(ps, hands[p := h + [card]]);
      assert P == P' + multiset{card};
      assert H' + multiset(h) == (H + multiset{card}) + multiset(h);
      MultisetCancel(H', H + multiset{card}, multiset(h));
      calc {
        Loose(pile[..|pile| - 1], ps, hands[p := h + [card]]);
        P' + H';
        P' + multiset{card} + H;
        Loose(pile, ps, hands);
      }
    }

    /** The table has one card per player (game.py:82, 85, 107). */
    ghost predicate TableFull()
      reads this
    {
      |current.table| == |players|
    }

    /**
     * game.py:24-38 once the player count is accepted: the roster and the
     * pile arrive already shuffled, hands start empty, the first storyteller
     * is the first roster entry and six rounds are dealt. Each round is the
     * dealing step of `_distribute`; its GameEndedError guard cannot fire
     * here, since six rounds for at most six players take 36 of 84 cards
     * (`DealingsAtMost`).
     * Reading: game.py:30 names `self.ids_players_turn`; the generator is
     * `ids_players_turn_generator`, whose first value is `players[0]`.
     */
    constructor Init(roster: seq<PlayerId>, shuffledPile: seq<Card>)
      requires MIN_PLAYERS <= |roster| <= MAX_PLAYERS && Distinct(roster)
      requires multiset(shuffledPile) == multiset(AllCards())
      ensures Valid()
      ensures players == roster && cursor == 0 && current == OpenTurn(roster[0])
      ensures pastTurns == [] && points == map[]
      ensures forall p :: p in players ==> |hands[p]| == HAND_SIZE
      ensures |pile| == NB_CARDS - HAND_SIZE * |players|
      ensures CardsInPlay() == multiset(AllCards())
    {
      assert |shuffledPile| == NB_CARDS by {
        assert |multiset(shuffledPile)| == |multiset(AllCards())|;
      }
      var deck, held := DealRounds(roster, shuffledPile);
      players := roster;
      pile := deck;
      hands := held;
      cursor := 0;
      current := OpenTurn(roster[0]);
      pastTurns := [];
      points := map[];
      new;
      assert Placed(players, current.table, pastTurns) == multiset{} by {
        TableCardsEmpty(players);
      }
    }

    /** The six dealing rounds of game.py:37-38 on fresh hands. */
    static method DealRounds(roster: seq<PlayerId>, shuffledPile: seq<Card>)
      returns (deck: seq<Card>, held: map<PlayerId, seq<Card>>)
      requires MIN_PLAYERS <= |roster| <= MAX_PLAYERS && Distinct(roster)
      requires |shuffledPile| == NB_CARDS
      ensures held.Keys == Elements(roster)
      ensures forall p :: p in roster ==> |held[p]| == HAND_SIZE
      ensures |deck| == NB_CARDS - HAND_SIZE * |roster|
      ensures Loose(deck, roster, held) == multiset(shuffledPile)
    {
      deck, held := shuffledPile, map p | p in roster :: [];
      assert held.Keys == Elements(roster);
      EmptyHands(roster, held);
      var round := 0;
      while round < HAND_SIZE
        invariant 0 <= round <= HAND_SIZE
        invariant held.Keys == Elements(roster)
        invariant forall p :: p in roster ==> |held[p]| == round
        invariant |deck| == NB_CARDS - Dealings(round, |roster|)
        invariant Loose(deck, roster, held) == multiset(shuffledPile)
      {
        DealingsAtMost(round + 1, |roster|);
        ghost var deck0, held0 := deck, held;
        deck, held := Deal(roster, deck, held);
        RoundStep(roster, deck0, held0, round);
        round := round + 1;
      }
      DealingsIsProduct(HAND_SIZE, |roster|);
    }

    /** The cards dealt by `k` rounds to `n` players, counted round by round. */
    static function Dealings(k: nat, n: nat): nat
    {
      if k == 0 then 0 else Dealings(k - 1, n) + n
    }

    /** At most six cards per round and player. */
    static lemma {:induction false} DealingsAtMost(k: nat, n: nat)
      requires n <= MAX_PLAYERS
      ensures Dealings(k, n) <= MAX_PLAYERS * k
    {
      if k > 0 {
        DealingsAtMost(k - 1, n);
      }
    }

    /** `k` rounds to `n` players deal k * n cards. */
    static lemma {:induction false} DealingsIsProduct(k: nat, n: nat)
      ensures Dealings(k, n) == k * n
    {
      if k > 0 {
        DealingsIsProduct(k - 1, n);
        assert k * n == (k - 1) * n + n;
      }
    }

    /** A dealt round gives every hand one more card and keeps the loose cards. */
    static lemma RoundStep(ps: seq<PlayerId>, pile: seq<Card>, hands: map<PlayerId, seq<Card>>, k: nat)
      requires Distinct(ps) && |ps| <= |pile| && Elements(ps) <= hands.Keys
      requires forall p :: p in ps ==> |hands[p]| == k
      ensures forall p :: p in ps ==> |Dealt(ps, pile, hands, |ps|)[p]| == k + 1
      ensures Loose(pile[..|pile| - |ps|], ps, Dealt(ps, pile, hands, |ps|)) == Loose(pile, ps, hands)
    {
      DealtSizes(ps, pile, hands, k);
      DealtLoose(ps, pile, hands, |ps|);
    }

    /** A dealt round adds one card to each hand of size `k`. */
    static lemma DealtSizes(ps: seq<PlayerId>, pile: seq<Card>, hands: map<PlayerId, seq<Card>>, k: nat)
      requires Distinct(ps) && |ps| <= |pile| && Elements(ps) <= hands.Keys
      requires forall p :: p in ps ==> |hands[p]| == k
      ensures forall p :: p in ps ==> |Dealt(ps, pile, hands, |ps|)[p]| == k + 1
    {
      DealtHands(ps, pile, hands, |ps|);
      forall p | p in ps
        ensures |Dealt(ps, pile, hands, |ps|)[p]| == k + 1
      {
        var i :| 0 <= i < |ps| && ps[i] == p;
      }
    }

    static lemma {:induction false} EmptyHands(ps: seq<PlayerId>, hands: map<PlayerId, seq<Card>>)
      requires forall p :: p in hands ==> hands[p] == []
      ensures HandsCards(ps, hands) == multiset{}
    {
      if ps != [] {
        EmptyHands(ps[1..], hands);
      }
    }

    /**
     * `DixitGame(ids_players)`, game.py:20-38. The two shuffles draw from
     * `rosterDraws` and `pileDraws` (see Shuffling.Shuffle).
     */
    static method New(ids: seq<PlayerId>, rosterDraws: seq<nat>, pileDraws: seq<nat>) returns (r: Result<DixitGame>)
      requires Distinct(ids)
      requires |rosterDraws| == |ids| && |pileDraws| == NB_CARDS
      ensures r.Err? <==> !(MIN_PLAYERS <= |ids| <= MAX_PLAYERS)
      ensures r.Err? ==> r.error == NumberPlayers
      ensures r.Ok? ==> fresh(r.value) && r.value.Valid()
      ensures r.Ok? ==> multiset(r.value.players) == multiset(ids)
      ensures r.Ok? ==> r.value.cursor == 0 && r.value.current == OpenTurn(r.value.players[0])
      ensures r.Ok? ==> r.value.pastTurns == [] && r.value.points == map[]
      ensures r.Ok? ==> forall p :: p in ids ==> p in r.value.hands && |r.value.hands[p]| == HAND_SIZE
      ensures r.Ok? ==> |r.value.pile| == NB_CARDS - HAND_SIZE * |ids|
      ensures r.Ok? ==> multiset(r.value.pile) + HandsCards(r.value.players, r.value.hands) == multiset(AllCards())
    {
      if !(MIN_PLAYERS <= |ids| <= MAX_PLAYERS) {
        return Err(NumberPlayers);
      }
      var roster := Shuffling.Shuffle(ids, rosterDraws);
      PermutationKeepsDistinct(ids, roster);
      var pile := Shuffling.Shuffle(AllCards(), pileDraws);
      var game := new DixitGame.Init(roster, pile);
      assert TableCards(game.players, map[]) == multiset{} by {
        TableCardsEmpty(game.players);
      }
      forall p | p in ids ensures p in game.players {
        assert p in Elements(ids);
      }
      return Ok(game);
    }

    /**
     * `_distribute`, game.py:40-48: all or nothing. With fewer cards in the
     * pile than players it raises GameEndedError and changes nothing;
     * otherwise player i of the roster receives the i-th card from the end
     * of the pile.
     */
    method Distribute() returns (r: Outcome)
      requires Valid()
      modifies this
      ensures Valid()
      ensures unchanged(this`players, this`cursor, this`current, this`pastTurns, this`points)
      ensures r.Fail? <==> |old(pile)| < |players|
      ensures r.Fail? ==> r.error == GameEnded && pile == old(pile) && hands == old(hands)
      ensures r.Pass? ==> pile == old(pile)[..|old(pile)| - |players|]
      ensures r.Pass? ==> hands == Dealt(players, old(pile), old(hands), |players|)
    {
      if |pile| < |players| {
        return Fail(GameEnded);
      }
      pile, hands := Deal(players, pile, hands);
      assert Valid();
      return Pass;
    }

    /**
     * The hands after the first `i` players of `ps` were dealt one card each,
     * the k-th of them taking the k-th card from the end of the pile.
     */
    static ghost function Dealt(ps: seq<PlayerId>, pile: seq<Card>, hands: map<PlayerId, seq<Card>>, i: nat)
      : (r: map<PlayerId, seq<Card>>)
      requires i <= |ps| <= |pile| && Elements(ps) <= hands.Keys
      ensures r.Keys == hands.Keys
      decreases i
    {
      if i == 0 then hands
      else
        var d := Dealt(ps, pile, hands, i - 1);
        assert ps[i - 1] in Elements(ps);
        d[ps[i - 1] := d[ps[i - 1]] + [pile[|pile| - i]]]
    }

    /** What `Dealt` gives each player: one more card for the first `i`, nothing for the rest. */
    static lemma {:induction false} DealtHands(ps: seq<PlayerId>, pile: seq<Card>, hands: map<PlayerId, seq<Card>>, i: nat)
      requires Distinct(ps) && i <= |ps| <= |pile| && Elements(ps) <= hands.Keys
      ensures forall j :: 0 <= j < i ==> Dealt(ps, pile, hands, i)[ps[j]] == hands[ps[j]] + [pile[|pile| - 1 - j]]
      ensures forall j :: i <= j < |ps| ==> Dealt(ps, pile, hands, i)[ps[j]] == hands[ps[j]]
      ensures forall q :: q in hands && q !in ps ==> Dealt(ps, pile, hands, i)[q] == hands[q]
    {
      if i > 0 {
        DealtHands(ps, pile, hands, i - 1);
      }
    }

    /** Dealing moves cards from the pile to the hands and no card is lost. */
    static lemma {:induction false} DealtLoose(ps: seq<PlayerId>, pile: seq<Card>, hands: map<PlayerId, seq<Card>>, i: nat)
      requires Distinct(ps) && i <= |ps| <= |pile| && Elements(ps) <= hands.Keys
      ensures Loose(pile[..|pile| - i], ps, Dealt(ps, pile, hands, i)) == Loose(pile, ps, hands)
    {
      if i > 0 {
        DealtLoose(ps, pile, hands, i - 1);
        DealtStep(ps, pile, hands, i);
      } else {
        assert pile[..|pile|] == pile;
      }
    }

    /** The i-th card dealt leaves the pile for a hand. */
    static lemma DealtStep(ps: seq<PlayerId>, pile: seq<Card>, hands: map<PlayerId, seq<Card>>, i: nat)
      requires Distinct(ps) && 0 < i <= |ps| <= |pile| && Elements(ps) <= hands.Keys
      requires Loose(pile[..|pile| - (i - 1)], ps, Dealt(ps, pile, hands, i - 1)) == Loose(pile, ps, hands)
      ensures Loose(pile[..|pile| - i], ps, Dealt(ps, pile, hands, i)) == Loose(pile, ps, hands)
    {
      var deck, prev, p := pile[..|pile| - (i - 1)], Dealt(ps, pile, hands, i - 1), ps[i - 1];
      assert deck[|deck| - 1] == pile[|pile| - i];
      assert deck[..|deck| - 1] == pile[..|pile| - i];
      assert Dealt(ps, pile, hands, i) == prev[p := prev[p] + [deck[|deck| - 1]]];
      assert p in Elements(ps);
      DealOne(deck, ps, prev, p);
    }

    /** The dealing loop of game.py:46-48 over plain values. */
    static method Deal(ps: seq<PlayerId>, pile: seq<Card>, hands: map<PlayerId, seq<Card>>)
      returns (deck: seq<Card>, held: map<PlayerId, seq<Card>>)
      requires Distinct(ps) && |pile| >= |ps| && Elements(ps) <= hands.Keys
      ensures deck == pile[..|pile| - |ps|]
      ensures held == Dealt(ps, pile, hands, |ps|)
    {
      deck, held := pile, hands;
      var i := 0;
      while i < |ps|
        invariant 0 <= i <= |ps|
        invariant deck == pile[..|pile| - i]
        invariant held == Dealt(ps, pile, hands, i)
      {
        var p := ps[i];
        assert p in Elements(ps);
        held := held[p := held[p] + [deck[|deck| - 1]]];
        deck := deck[..|deck| - 1];
        i := i + 1;
      }
    }

    /**
     * `_sanity_check`, game.py:50-55: the player must be in the game and,
     * when a card is given, hold it.
     */
    function SanityCheck(p: PlayerId, c: Option<Card>): (r: Outcome)
      reads this
      requires Valid()
      ensures r.Pass? <==> p in players && (c.Some? ==> c.value in hands[p])
      ensures r.Fail? && p !in players ==> r.error == UnknownPlayer
      ensures r.Fail? && p in players ==> r.error == CardNotInHand
    {
      if p !in hands then Fail(UnknownPlayer)
      else if c.Some? && c.value !in hands[p] then Fail(CardNotInHand)
      else Pass
    }

    /** `get_hand`, game.py:57-59. */
    function GetHand(p: PlayerId): (r: Result<seq<Card>>)
      reads this
      requires Valid()
      ensures r.Err? <==> p !in players
      ensures r.Err? ==> r.error == UnknownPlayer
      ensures r.Ok? ==> r.value == hands[p]
    {
      if SanityCheck(p, None).Fail? then Err(SanityCheck(p, None).error) else Ok(hands[p])
    }

    /**
     * While the cards are conserved, a card in a hand returned by `GetHand`
     * is a card of the game held by that player alone: not in the pile, not
     * on a table and not in another hand.
     */
    lemma HandCardIsPrivate(p: PlayerId, c: Card)
      requires Valid() && CardsInPlay() == multiset(AllCards())
      requires GetHand(p).Ok? && c in GetHand(p).value
      ensures 1 <= c <= NB_CARDS
      ensures c !in pile
      ensures c !in TableCards(players, current.table) && c !in ArchivedCards(players, pastTurns)
      ensures forall q :: q in players && q != p ==> c !in hands[q]
    {
      var rest := TableCards(players, current.table) + ArchivedCards(players, pastTurns);
      CardInHandIsUnique(pile, players, hands, rest, p, c);
    }

    /**
     * game.py:98 as written: `_sanity_check(id_player, id_card)` asks for the
     * voted card in the voter's own hand. While the cards are conserved, a
     * card on the table is in nobody's hand, so that check rejects every vote
     * for a table card and no vote can ever be cast.
     */
    lemma SanityCheckRejectsTableCards(p: PlayerId, c: Card)
      requires Valid() && CardsInPlay() == multiset(AllCards())
      requires c in current.table.Values
      ensures SanityCheck(p, Some(c)).Fail?
    {
      if p in players && c in hands[p] {
        var q :| q in current.table && current.table[q] == c;
        assert q in Elements(players);
        var onTable := TableList(players, current.table);
        assert q in players && q in current.table && current.table[q] == c;
        assert c in onTable;
        var rest := TableCards(players, current.table) + ArchivedCards(players, pastTurns);
        assert c in rest;
        CardInHandIsUnique(pile, players, hands, rest, p, c);
        assert false;
      }
    }

    /**
     * `tell`, game.py:61-68. The checks run in the source's order; on
     * success the card leaves the storyteller's hand and becomes their table
     * card. No phase is checked, so a second `tell` replaces the first table
     * card, which then leaves the game (`MoveToTable`).
     */
    method Tell(p: PlayerId, c: Card, description: string) returns (r: Outcome)
      requires Valid()
      modifies this
      ensures Valid()
      ensures unchanged(this`players, this`pile, this`cursor, this`pastTurns, this`points)
      ensures p !in players ==> r == Fail(UnknownPlayer)
      ensures p in players && c !in old(hands[p]) ==> r == Fail(CardNotInHand)
      ensures p in players && c in old(hands[p]) && p != old(current.storyteller) ==> r == Fail(NotStoryteller)
      ensures p in players && c in old(hands[p]) && p == old(current.storyteller) ==> r == Pass
      ensures r.Fail? ==> unchanged(this)
      ensures r.Pass? ==> hands == old(hands)[p := RemoveFirst(old(hands[p]), c)]
      ensures r.Pass? ==> current == old(current).(description := Some(description), table := old(current.table)[p := c])
    {
      r := SanityCheck(p, Some(c));
      if r.Fail? {
        return;
      }
      if p != current.storyteller {
        return Fail(NotStoryteller);
      }
      PlaceCard(p, c);
      current := current.(storyteller := p, description := Some(description));
    }

    /**
     * `hands[p].remove(c)` followed by `table[p] = c` (game.py:65, 68 and
     * 80-81): the card moves from the hand to the table, and a card `p` had
     * already put there leaves the game.
     */
    method PlaceCard(p: PlayerId, c: Card)
      requires Valid() && p in players && c in hands[p]
      modifies this
      ensures Valid()
      ensures unchanged(this`players, this`pile, this`cursor, this`pastTurns, this`points)
      ensures hands == old(hands)[p := RemoveFirst(old(hands[p]), c)]
      ensures current == old(current).(table := old(current.table)[p := c])
    {
      hands := hands[p := RemoveFirst(hands[p], c)];
      current := current.(table := current.table[p := c]);
    }

    /**
     * `play`, game.py:70-82: a player other than the storyteller puts a card
     * from their hand on the table. The result says whether every player
     * now has a table card.
     * Reading: game.py:82 names a bare `current_turn`; it is `self.current_turn`.
     */
    method Play(p: PlayerId, c: Card) returns (r: Result<bool>)
      requires Valid()
      modifies this
      ensures Valid()
      ensures unchanged(this`players, this`pile, this`cursor, this`pastTurns, this`points)
      ensures p !in players ==> r == Err(UnknownPlayer)
      ensures p in players && c !in old(hands[p]) ==> r == Err(CardNotInHand)
      ensures p in players && c in old(hands[p]) && p == old(current.storyteller) ==> r == Err(StorytellerCannotPlay)
      ensures p in players && c in old(hands[p]) && p != old(current.storyteller) ==> r.Ok?
      ensures r.Err? ==> unchanged(this)
      ensures r.Ok? ==> hands == old(hands)[p := RemoveFirst(old(hands[p]), c)]
      ensures r.Ok? ==> current == old(current).(table := old(current.table)[p := c])
      ensures r.Ok? ==> (r.value <==> current.table.Keys == Elements(players))
    {
      var check := SanityCheck(p, Some(c));
      if check.Fail? {
        return Err(check.error);
      }
      if p == current.storyteller {
        return Err(StorytellerCannotPlay);
      }
      PlaceCard(p, c);
      r := Ok(|current.table| == |players|);
      FullTableIsRoster(players, current.table);
    }

    /** One card per player means every player has a table card. */
    static lemma FullTableIsRoster(ps: seq<PlayerId>, table: map<PlayerId, Card>)
      requires Distinct(ps) && table.Keys <= Elements(ps)
      ensures |table| == |ps| <==> table.Keys == Elements(ps)
    {
      DistinctCardinality(ps);
      if |table| == |ps| {
        SameSizeSubset(table.Keys, Elements(ps));
      }
    }

    /** n - 1 votes means every player but the storyteller has voted. */
    static lemma AllVotedIsOthers(ps: seq<PlayerId>, st: PlayerId, votes: map<PlayerId, Card>)
      requires Distinct(ps) && st in ps && votes.Keys <= Elements(ps) - {st}
      ensures |votes| == |ps| - 1 <==> votes.Keys == Elements(ps) - {st}
    {
      DistinctCardinality(ps);
      var others := Elements(ps) - {st};
      assert Elements(ps) == others + {st};
      if |votes| == |ps| - 1 {
        SameSizeSubset(votes.Keys, others);
      }
    }

    /**
     * `get_table`, game.py:84-89: before every player has a table card it
     * raises NotReadyToVoteError; afterwards it returns the table's cards,
     * each as often as it lies there, in an order drawn from `draws`.
     */
    method GetTable(draws: seq<nat>) returns (r: Result<seq<Card>>)
      requires Valid() && |draws| == |players|
      ensures r.Err? <==> !TableFull()
      ensures r.Err? ==> r.error == NotReadyToVote
      ensures r.Ok? ==> multiset(r.value) == TableCards(players, current.table)
      ensures r.Ok? ==> forall c :: c in r.value <==> c in current.table.Values
    {
      if |current.table| != |players| {
        return Err(NotReadyToVote);
      }
      FullTableIsRoster(players, current.table);
      var cards := TableList(players, current.table);
      assert |cards| == |players| by {
        assert |multiset(cards)| == |TableCards(players, current.table)|;
        TableCardsSize(players, current.table);
      }
      var shuffled := Shuffling.Shuffle(cards, draws);
      forall c ensures c in shuffled <==> c in current.table.Values {
        assert c in shuffled <==> c in multiset(shuffled);
        assert c in cards <==> c in multiset(cards);
      }
      return Ok(shuffled);
    }

    /** A full table holds one card per roster entry. */
    static lemma {:induction false} TableCardsSize(ps: seq<PlayerId>, table: map<PlayerId, Card>)
      requires forall p :: p in ps ==> p in table
      ensures |TableCards(ps, table)| == |ps|
    {
      if ps != [] {
        TableCardsSize(ps[1..], table);
      }
    }

    /**
     * `vote`, game.py:91-104: a player other than the storyteller votes for
     * a table card that is not their own. The result says whether every
     * player but the storyteller has now voted; a second vote replaces the
     * first.
     * game.py:98 checks that the card is in the voter's hand, which a table
     * card never is (`SanityCheckRejectsTableCards`); the model checks that
     * it is on the table.
     * game.py:103 writes the vote into the table; it goes into `votes`.
     * A voter with no table card fails the lookup at game.py:101 (KeyError).
     */
    method Vote(p: PlayerId, c: Card) returns (r: Result<bool>)
      requires Valid()
      modifies this
      ensures Valid()
      ensures unchanged(this`players, this`pile, this`hands, this`cursor, this`pastTurns, this`points)
      ensures p !in players ==> r == Err(UnknownPlayer)
      ensures p in players && c !in old(current.table).Values ==> r == Err(CardNotOnTable)
      ensures p in players && c in old(current.table).Values && p == old(current.storyteller)
              ==> r == Err(StorytellerCannotVote)
      ensures p in players && c in old(current.table).Values && p != old(current.storyteller) && p !in old(current.table)
              ==> r == Err(NotOnTable)
      ensures p in players && c in old(current.table).Values && p != old(current.storyteller) && p in old(current.table) ==>
                if c == old(current.table)[p] then r == Err(OwnCardVote) else r.Ok?
      ensures r.Err? ==> unchanged(this)
      ensures r.Ok? ==> current == old(current).(votes := old(current.votes)[p := c])
      ensures r.Ok? ==> (r.value <==> current.votes.Keys == Elements(players) - {current.storyteller})
    {
      if p !in hands {
        return Err(UnknownPlayer);
      }
      if c !in current.table.Values {
        return Err(CardNotOnTable);
      }
      if p == current.storyteller {
        return Err(StorytellerCannotVote);
      }
      if p !in current.table {
        return Err(NotOnTable);
      }
      if c == current.table[p] {
        return Err(OwnCardVote);
      }
      current := current.(votes := current.votes[p := c]);
      r := Ok(|current.votes| == |players| - 1);
      AllVotedIsOthers(players, current.storyteller, current.votes);
    }

    /**
     * Whether scoring a turn given by its storyteller, table and votes fails,
     * and how: the two checks of game.py:107-110, then a voted card without
     * a unique owner (game.py:130-131).
     */
    static ghost function ScoreFault(ps: seq<PlayerId>, st: PlayerId, table: map<PlayerId, Card>,
                                     votes: map<PlayerId, Card>): Option<GameError>
      requires Distinct(ps) && st in ps && table.Keys <= Elements(ps) && votes.Keys <= Elements(ps) - {st}
    {
      if |table| != |ps| then Some(CardsMissing)
      else if |votes| != |ps| - 1 then Some(VotesMissing)
      else
        FullTableIsRoster(ps, table);
        AllVotedIsOthers(ps, st, votes);
        if Scoring.OwnerFault(ps, st, table, votes) then Some(OwnerNotUnique)
        else None
    }

    /**
     * The scoring of game.py:107-132 on the turn's values: it fails exactly
     * when `ScoreFault` names an error, and otherwise returns a Counter giving
     * every player `Scoring.Delta` points.
     */
    static method ScoreTurn(ps: seq<PlayerId>, st: PlayerId, table: map<PlayerId, Card>, votes: map<PlayerId, Card>)
      returns (r: Result<Counter>)
      requires Distinct(ps) && st in ps && table.Keys <= Elements(ps) && votes.Keys <= Elements(ps) - {st}
      ensures r.Err? <==> ScoreFault(ps, st, table, votes).Some?
      ensures r.Err? ==> r.error == ScoreFault(ps, st, table, votes).value
      ensures r.Ok? ==> Scoring.Scorable(ps, st, table, votes) && Positive(r.value)
      ensures r.Ok? ==> forall q :: Get(r.value, q) == Scoring.Delta(ps, st, table, votes, q)
    {
      if |table| != |ps| {
        return Err(CardsMissing);
      }
      if |votes| != |ps| - 1 {
        return Err(VotesMissing);
      }
      FullTableIsRoster(ps, table);
      AllVotedIsOthers(ps, st, votes);
      r := Scoring.ComputeTurnPoints(ps, st, table, votes);
    }

    /**
     * `_update_points_with_current_turn`, game.py:106-134. On success the
     * turn's Counter gives each player `Scoring.Delta` points and is stored
     * in the turn, and the cumulative points grow by it. On failure nothing
     * changes.
     * Reading: game.py:107 names a bare `current_turn`; it is `self.current_turn`.
     */
    method UpdatePointsWithCurrentTurn() returns (r: Outcome)
      requires Valid()
      modifies this
      ensures Valid()
      ensures unchanged(this`players, this`pile, this`hands, this`cursor, this`pastTurns)
      ensures r.Fail? <==> old(ScoreFault(players, current.storyteller, current.table, current.votes)).Some?
      ensures r.Fail? ==> r.error == old(ScoreFault(players, current.storyteller, current.table, current.votes)).value
      ensures r.Fail? ==> points == old(points) && current == old(current)
      ensures r.Pass? ==> Scoring.Scorable(players, current.storyteller, current.table, current.votes)
      ensures r.Pass? ==> current.points.Some? && current == old(current).(points := current.points)
      ensures r.Pass? ==> forall q :: Get(current.points.value, q)
                                      == Scoring.Delta(players, current.storyteller, current.table, current.votes, q)
      ensures r.Pass? ==> forall q :: Get(points, q) == Get(old(points), q) + Get(current.points.value, q)
    {
      var turnPoints := ScoreTurn(players, current.storyteller, current.table, current.votes);
      if turnPoints.Err? {
        return Fail(turnPoints.error);
      }
      points := Add(points, turnPoints.value);
      current := current.(points := Some(turnPoints.value));
      r := Pass;
    }

    /**
     * `end_turn`, game.py:136-149, in the source's order: score the turn,
     * archive it, open a fresh turn for the next storyteller in the
     * rotation, deal one round. A scoring failure changes nothing; when the
     * pile cannot serve a round, GameEndedError comes after the turn was
     * archived and replaced, and hands and pile stay as they were.
     */
    method EndTurn() returns (r: Outcome)
      requires Valid()
      modifies this
      ensures Valid()
      ensures unchanged(this`players)
      ensures old(ScoreFault(players, current.storyteller, current.table, current.votes)).Some? ==>
                r == Fail(old(ScoreFault(players, current.storyteller, current.table, current.votes)).value)
      ensures old(ScoreFault(players, current.storyteller, current.table, current.votes)).Some? ==>
                pile == old(pile) && hands == old(hands) && cursor == old(cursor) && current == old(current)
                && pastTurns == old(pastTurns) && points == old(points)
      ensures old(ScoreFault(players, current.storyteller, current.table, current.votes)).None? ==>
                |pastTurns| == |old(pastTurns)| + 1 && pastTurns[..|old(pastTurns)|] == old(pastTurns)
      ensures old(ScoreFault(players, current.storyteller, current.table, current.votes)).None? ==>
                var t := pastTurns[|old(pastTurns)|];
                && t == old(current).(points := t.points)
                && Scoring.Scorable(players, t.storyteller, t.table, t.votes)
                && (forall q :: Get(t.points.value, q) == Scoring.Delta(players, t.storyteller, t.table, t.votes, q))
                && (forall q :: Get(points, q) == Get(old(points), q) + Get(t.points.value, q))
                && LastTurnSummary() == Ok((t.points.value, t.table, t.votes))
      ensures old(ScoreFault(players, current.storyteller, current.table, current.votes)).None? ==>
                && cursor == (if old(cursor) + 1 == |players| then 0 else old(cursor) + 1)
                && current == OpenTurn(Rotation.StorytellerAt(players, |pastTurns|))
      ensures old(ScoreFault(players, current.storyteller, current.table, current.votes)).None? ==>
                (r.Fail? <==> |old(pile)| < |players|)
      ensures old(ScoreFault(players, current.storyteller, current.table, current.votes)).None? && r.Fail? ==>
                r.error == GameEnded && pile == old(pile) && hands == old(hands)
      ensures old(ScoreFault(players, current.storyteller, current.table, current.votes)).None? && r.Pass? ==>
                pile == old(pile)[..|old(pile)| - |players|] && hands == Dealt(players, old(pile), old(hands), |players|)
      ensures forall q :: Get(points, q) >= Get(old(points), q)
    {
      r := UpdatePointsWithCurrentTurn();
      if r.Fail? {
        return;
      }
      Archive();
      r := Distribute();
    }

    /**
     * game.py:140-147: the scored turn joins the archive and a fresh turn
     * opens for the next storyteller of the rotation.
     */
    method Archive()
      requires Valid() && current.points.Some?
      modifies this
      ensures Valid()
      ensures unchanged(this`players, this`pile, this`hands, this`points)
      ensures pastTurns == old(pastTurns) + [old(current)]
      ensures cursor == if old(cursor) + 1 == |players| then 0 else old(cursor) + 1
      ensures current == OpenTurn(Rotation.StorytellerAt(players, |pastTurns|))
    {
      pastTurns := pastTurns + [current];
      cursor := if cursor + 1 == |players| then 0 else cursor + 1;
      current := OpenTurn(players[cursor]);
    }

    /**
     * Card conservation across `_distribute` (game.py:46-48): the cards
     * dealt leave the pile for the hands, and tables and archive are
     * untouched (see `Distribute`'s postcondition for the new pile and hands).
     */
    static lemma DealKeepsCards(pile: seq<Card>, ps: seq<PlayerId>, hands: map<PlayerId, seq<Card>>,
                                table: map<PlayerId, Card>, past: seq<Turn>)
      requires Distinct(ps) && |ps| <= |pile| && Elements(ps) <= hands.Keys
      ensures Total(pile[..|pile| - |ps|], ps, Dealt(ps, pile, hands, |ps|), table, past) == Total(pile, ps, hands, table, past)
    {
      var deck, held := pile[..|pile| - |ps|], Dealt(ps, pile, hands, |ps|);
      DealtLoose(ps, pile, hands, |ps|);
      assert Loose(deck, ps, held) == Loose(pile, ps, hands);
      var placed := Placed(ps, table, past);
      assert Total(deck, ps, held, table, past) == Loose(deck, ps, held) + placed;
      assert Total(pile, ps, hands, table, past) == Loose(pile, ps, hands) + placed;
    }

    /**
     * Card conservation across archiving (game.py:146-147): the table of
     * the archived turn is now counted among the archived cards, and the new
     * turn's table is empty.
     */
    static lemma ArchiveKeepsCards(pile: seq<Card>, ps: seq<PlayerId>, hands: map<PlayerId, seq<Card>>,
                                   past: seq<Turn>, t: Turn)
      ensures Total(pile, ps, hands, map[], past + [t]) == Total(pile, ps, hands, t.table, past)
    {
      assert (past + [t])[..|past|] == past;
      TableCardsEmpty(ps);
    }

    /**
     * Card conservation across `end_turn` (game.py:136-149): whether the
     * final deal happens or GameEndedError leaves pile and hands alone, the
     * game holds the same cards as before (the states are those of
     * `EndTurn`'s postcondition).
     */
    static lemma EndTurnKeepsCards(pile: seq<Card>, ps: seq<PlayerId>, hands: map<PlayerId, seq<Card>>,
                                   past: seq<Turn>, t: Turn)
      requires Distinct(ps) && Elements(ps) <= hands.Keys
      ensures Total(pile, ps, hands, map[], past + [t]) == Total(pile, ps, hands, t.table, past)
      ensures |ps| <= |pile| ==>
                Total(pile[..|pile| - |ps|], ps, Dealt(ps, pile, hands, |ps|), map[], past + [t])
                == Total(pile, ps, hands, t.table, past)
    {
      ArchiveKeepsCards(pile, ps, hands, past, t);
      if |ps| <= |pile| {
        DealKeepsCards(pile, ps, hands, map[], past + [t]);
      }
    }

    /**
     * `get_points_table_vote_last_turn`, game.py:151-153: the last archived
     * turn's points, table and votes; IndexError when no turn was archived.
     * Reading: game.py:153 reads key 'vote'; the turn stores 'votes'.
     */
    function LastTurnSummary(): (r: Result<(Counter, map<PlayerId, Card>, map<PlayerId, Card>)>)
      reads this
      requires Valid()
      ensures r.Err? <==> pastTurns == []
      ensures r.Err? ==> r.error == NoPastTurn
      ensures r.Ok? ==> var last := pastTurns[|pastTurns| - 1];
                        r.value == (last.points.value, last.table, last.votes)
    {
      if pastTurns == [] then Err(NoPastTurn)
      else
        var last := pastTurns[|pastTurns| - 1];
        Ok((last.points.value, last.table, last.votes))
    }

    /** `get_stats`, game.py:155-158: the cumulative points. */
    function GetStats(): (r: Counter)
      reads this
      requires Valid()
      ensures Positive(r)
      ensures forall q :: Get(r, q) == Get(points, q)
    {
      points
    }
  }
}
