/**
 * Card accounting. The engine keeps cards in four places: the pile, the
 * players' hands, the current table and the tables of archived turns. The
 * functions here collect the cards of hands and tables as multisets, by
 * walking the roster, so that "no card is created or lost" can be stated as
 * one multiset equation.
 */
module Cards {
  import opened Base

  /** `list(range(1, NB_CARDS + 1))`: the fresh pile before shuffling. */
  function AllCards(): (r: seq<Card>)
    ensures |r| == NB_CARDS && Distinct(r)
    ensures forall c :: c in r <==> 1 <= c <= NB_CARDS
  {
    var r := seq(NB_CARDS, i => i + 1);
    forall c | 1 <= c <= NB_CARDS
      ensures c in r
    {
      assert r[c - 1] == c;
    }
    r
  }

  /** The cards held in the hands of the players `ps`. */
  function HandsCards(ps: seq<PlayerId>, hands: map<PlayerId, seq<Card>>): multiset<Card>
  {
    if ps == [] then multiset{}
    else (if ps[0] in hands then multiset(hands[ps[0]]) else multiset{}) + HandsCards(ps[1..], hands)
  }

  /** The card `p` has put on the table, if any. */
  function Slot(table: map<PlayerId, Card>, p: PlayerId): multiset<Card>
  {
    if p in table then multiset{table[p]} else multiset{}
  }

  /** The cards that the players `ps` have put on a table. */
  function TableCards(ps: seq<PlayerId>, table: map<PlayerId, Card>): multiset<Card>
  {
    if ps == [] then multiset{}
    else Slot(table, ps[0]) + TableCards(ps[1..], table)
  }

  /** Changing the hand of a player outside `ps` does not change the cards of `ps`. */
  lemma {:induction false} HandsCardsOutside(ps: seq<PlayerId>, hands: map<PlayerId, seq<Card>>, p: PlayerId, h: seq<Card>)
    requires p !in ps
    ensures HandsCards(ps, hands[p := h]) == HandsCards(ps, hands)
  {
    if ps != [] {
      HandsCardsOutside(ps[1..], hands, p, h);
    }
  }

  /** Replacing the hand of one player of `ps` swaps that hand's cards for the new ones. */
  lemma {:induction false} HandsCardsUpdate(ps: seq<PlayerId>, hands: map<PlayerId, seq<Card>>, p: PlayerId, h: seq<Card>)
    requires Distinct(ps) && p in ps && p in hands
    ensures HandsCards(ps, hands[p := h]) + multiset(hands[p]) == HandsCards(ps, hands) + multiset(h)
  {
    if ps[0] == p {
      assert p !in ps[1..];
      HandsCardsOutside(ps[1..], hands, p, h);
    } else {
      assert Distinct(ps[1..]) && p in ps[1..];
      HandsCardsUpdate(ps[1..], hands, p, h);
      var head := if ps[0] in hands then multiset(hands[ps[0]]) else multiset{};
      assert HandsCards(ps, hands[p := h]) == head + HandsCards(ps[1..], hands[p := h]);
      assert HandsCards(ps, hands) == head + HandsCards(ps[1..], hands);
      calc {
        HandsCards(ps, hands[p := h]) + multiset(hands[p]);
        head + (HandsCards(ps[1..], hands[p := h]) + multiset(hands[p]));
        head + (HandsCards(ps[1..], hands) + multiset(h));
        HandsCards(ps, hands) + multiset(h);
      }
    }
  }

  /** Placing a card for a player outside `ps` does not change the cards of `ps`. */
  lemma {:induction false} TableCardsOutside(ps: seq<PlayerId>, table: map<PlayerId, Card>, p: PlayerId, c: Card)
    requires p !in ps
    ensures TableCards(ps, table[p := c]) == TableCards(ps, table)
  {
    if ps != [] {
      TableCardsOutside(ps[1..], table, p, c);
    }
  }

  /**
   * `table[p] = c` for a player of `ps` adds `c` to the table and, when `p`
   * had already put a card there, takes that card off the table.
   */
  lemma {:induction false} TableCardsUpdate(ps: seq<PlayerId>, table: map<PlayerId, Card>, p: PlayerId, c: Card)
    requires Distinct(ps) && p in ps
    ensures TableCards(ps, table[p := c]) + Slot(table, p) == TableCards(ps, table) + multiset{c}
  {
    DistinctTail(ps);
    if ps[0] == p {
      TableCardsOutside(ps[1..], table, p, c);
    } else {
      TableCardsUpdate(ps[1..], table, p, c);
      TableCardsUpdateLater(ps, table, p, c);
    }
  }

  /** The step of `TableCardsUpdate` for a player further down the roster. */
  lemma TableCardsUpdateLater(ps: seq<PlayerId>, table: map<PlayerId, Card>, p: PlayerId, c: Card)
    requires ps != [] && ps[0] != p
    requires TableCards(ps[1..], table[p := c]) + Slot(table, p) == TableCards(ps[1..], table) + multiset{c}
    ensures TableCards(ps, table[p := c]) + Slot(table, p) == TableCards(ps, table) + multiset{c}
  {
    var head, rest, rest' := Slot(table, ps[0]), TableCards(ps[1..], table), TableCards(ps[1..], table[p := c]);
    assert Slot(table[p := c], ps[0]) == head;
    assert TableCards(ps, table[p := c]) == head + rest';
    assert TableCards(ps, table) == head + rest;
    calc {
      TableCards(ps, table[p := c]) + Slot(table, p);
      head + rest' + Slot(table, p);
      head + (rest' + Slot(table, p));
      head + (rest + multiset{c});
      TableCards(ps, table) + multiset{c};
    }
  }

  /** The empty table holds no card. */
  lemma {:induction false} TableCardsEmpty(ps: seq<PlayerId>)
    ensures TableCards(ps, map[]) == multiset{}
  {
    if ps != [] {
      TableCardsEmpty(ps[1..]);
    }
  }

  /** A card of a sequence without repetitions occurs exactly once in it. */
  lemma {:induction false} DistinctCount<T>(s: seq<T>, x: T)
    requires Distinct(s)
    ensures multiset(s)[x] <= 1
  {
    if s != [] {
      assert s == [s[0]] + s[1..];
      assert Distinct(s[1..]);
      DistinctCount(s[1..], x);
      if s[0] == x {
        assert x !in s[1..];
      }
    }
  }

  /** A permutation of a sequence without repetitions has none either, and the same elements. */
  lemma PermutationKeepsDistinct<T>(s: seq<T>, t: seq<T>)
    requires multiset(s) == multiset(t) && Distinct(s)
    ensures Distinct(t) && Elements(t) == Elements(s)
  {
    forall i, j | 0 <= i < j < |t|
      ensures t[i] != t[j]
    {
      if t[i] == t[j] {
        assert t == t[..j] + t[j..];
        assert t[i] in multiset(t[..j]) && t[j] in multiset(t[j..]);
        assert multiset(t)[t[i]] >= 2;
        DistinctCount(s, t[i]);
      }
    }
    forall x ensures x in t <==> x in s {
      assert x in t <==> x in multiset(t);
      assert x in s <==> x in multiset(s);
    }
  }

  /**
   * While the cards are conserved, a card in a player's hand is a card of the
   * game, is held once, and is neither in the pile, nor in another player's
   * hand, nor anywhere else (`rest` stands for the tables).
   */
  lemma CardInHandIsUnique(pile: seq<Card>, ps: seq<PlayerId>, hands: map<PlayerId, seq<Card>>, rest: multiset<Card>,
                           p: PlayerId, c: Card)
    requires Distinct(ps) && p in ps && p in hands && c in hands[p]
    requires multiset(pile) + HandsCards(ps, hands) + rest == multiset(AllCards())
    ensures 1 <= c <= NB_CARDS
    ensures multiset(hands[p])[c] == 1
    ensures c !in pile && c !in rest
    ensures forall q :: q in ps && q in hands && q != p ==> c !in hands[q]
  {
    DistinctCount(AllCards(), c);
    var others := hands[p := []];
    HandsCardsUpdate(ps, hands, p, []);
    assert HandsCards(ps, hands) == HandsCards(ps, others) + multiset(hands[p]);
    assert c in multiset(AllCards());
    forall q | q in ps && q in hands && q != p
      ensures c !in hands[q]
    {
      HandsCardsUpdate(ps, others, q, []);
      assert others[q] == hands[q];
      assert HandsCards(ps, others) == HandsCards(ps, others[q := []]) + multiset(hands[q]);
    }
  }
}
