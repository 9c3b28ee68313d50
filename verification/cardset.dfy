/**
 * Card tiers: `CardSet::from_file` groups the ids of a card map into buckets by tier (bucket
 * `t - 1` holds the cards of tier `t`), and `get_card_from_tier` draws an id from one bucket.
 * The card map is taken as given (reading and parsing the file are not part of this model) and
 * the random draw is a nondeterministic choice of index.
 */
module CardSets {
  import opened Primitives

  datatype CardSpec = CardSpec(name: string, group: string, tier: u32, cost: map<string, u32>)

  datatype CardSet = CardSet(tiers: seq<seq<string>>, cards: map<string, CardSpec>)

  /** The largest tier among the cards of `ids`. */
  function MaxTierOf(cards: map<string, CardSpec>, ids: set<string>): (m: nat)
    requires ids != {} && ids <= cards.Keys
    ensures exists id :: id in ids && cards[id].tier == m
    ensures forall id :: id in ids ==> cards[id].tier <= m
    decreases ids
  {
    var id :| id in ids;
    if ids == {id} then cards[id].tier
    else
      var rest := MaxTierOf(cards, ids - {id});
      if cards[id].tier >= rest then cards[id].tier else rest
  }

  /** The highest tier of any card, or 1 when there are no cards. */
  function MaxTier(cards: map<string, CardSpec>): (m: nat)
    ensures cards == map[] ==> m == 1
    ensures cards != map[] ==> (exists id :: id in cards && cards[id].tier == m)
    ensures forall id :: id in cards ==> cards[id].tier <= m
  {
    if cards == map[] then 1 else MaxTierOf(cards, cards.Keys)
  }

  /** No id occurs twice in a bucket. */
  predicate NoDuplicates(bucket: seq<string>)
  {
    forall i, j :: 0 <= i < j < |bucket| ==> bucket[i] != bucket[j]
  }

  /**
   * `tiers` buckets exactly the ids of `placed`: each bucket `t` holds only ids of tier `t + 1`,
   * each placed id lies in the bucket of its tier, and no bucket repeats an id.
   */
  ghost predicate Bucketed(cards: map<string, CardSpec>, tiers: seq<seq<string>>, placed: set<string>)
    requires placed <= cards.Keys
  {
    && (forall t, id :: 0 <= t < |tiers| && id in tiers[t] ==> id in placed && cards[id].tier == t + 1)
    && (forall id :: id in placed ==> 1 <= cards[id].tier <= |tiers| && id in tiers[cards[id].tier - 1])
    && (forall t :: 0 <= t < |tiers| ==> NoDuplicates(tiers[t]))
  }

  /** Pushing a new id onto the bucket of its tier keeps the buckets exact. */
  lemma PushKeepsBucketed(cards: map<string, CardSpec>, tiers: seq<seq<string>>, placed: set<string>, id: string)
    requires placed <= cards.Keys && id in cards && id !in placed
    requires 1 <= cards[id].tier <= |tiers|
    requires Bucketed(cards, tiers, placed)
    ensures var t := cards[id].tier - 1;
      Bucketed(cards, tiers[t := tiers[t] + [id]], placed + {id})
  {
    var t := cards[id].tier - 1;
    var tiers' := tiers[t := tiers[t] + [id]];
    forall u, x | 0 <= u < |tiers'| && x in tiers'[u]
      ensures x in placed + {id} && cards[x].tier == u + 1
    {
      if u == t && x !in tiers[t] {
        assert x == id;
      }
    }
    forall x | x in placed + {id}
      ensures 1 <= cards[x].tier <= |tiers'| && x in tiers'[cards[x].tier - 1]
    {
      if x != id && cards[x].tier - 1 == t {
        assert x in tiers[t];
      }
      assert id in tiers'[t];
    }
    assert NoDuplicates(tiers'[t]) by {
      assert id !in tiers[t];
    }
    forall u | 0 <= u < |tiers'|
      ensures NoDuplicates(tiers'[u])
    {
      if u != t {
        assert tiers'[u] == tiers[u];
      }
    }
  }

  /** Empty buckets, as many as the highest tier, bucket no id yet. */
  lemma EmptyBucketed(cards: map<string, CardSpec>)
    ensures Bucketed(cards, seq(MaxTier(cards), _ => []), {})
  {
    var tiers: seq<seq<string>> := seq(MaxTier(cards), _ => []);
    forall t | 0 <= t < |tiers|
      ensures tiers[t] == []
    {
    }
  }

  /**
   * The tier computation of `CardSet::from_file`: as many buckets as the highest tier (one when
   * there are no cards), and every card id pushed once into the bucket of its tier. A card of
   * tier 0 makes the source's `tier - 1` underflow, so every tier must be at least 1.
   */
  method FromCards(cards: map<string, CardSpec>) returns (cardSet: CardSet)
    requires forall id :: id in cards ==> cards[id].tier >= 1
    ensures cardSet.cards == cards
    ensures |cardSet.tiers| == MaxTier(cards)
    ensures Bucketed(cards, cardSet.tiers, cards.Keys)
  {
    var max := MaxTier(cards);
    var tiers: seq<seq<string>> := seq(max, _ => []);
    var remaining := cards.Keys;
    EmptyBucketed(cards);
    while remaining != {}
      invariant remaining <= cards.Keys
      invariant |tiers| == max
      invariant Bucketed(cards, tiers, cards.Keys - remaining)
      decreases remaining
    {
      var id :| id in remaining;
      var t := cards[id].tier - 1;
      PushKeepsBucketed(cards, tiers, cards.Keys - remaining, id);
      assert (cards.Keys - remaining) + {id} == cards.Keys - (remaining - {id});
      tiers := tiers[t := tiers[t] + [id]];
      remaining := remaining - {id};
    }
    assert cards.Keys - remaining == cards.Keys;
    cardSet := CardSet(tiers, cards);
  }

  /** A drawn id names a card of the bucket's tier, and lies in no other bucket. */
  lemma BucketHoldsItsTier(cardSet: CardSet, tier: nat, card: string)
    requires Bucketed(cardSet.cards, cardSet.tiers, cardSet.cards.Keys)
    requires tier < |cardSet.tiers| && card in cardSet.tiers[tier]
    ensures card in cardSet.cards && cardSet.cards[card].tier == tier + 1
    ensures forall u :: 0 <= u < |cardSet.tiers| && card in cardSet.tiers[u] ==> u == tier
  {
  }

  /**
   * `get_card_from_tier`: draws an index in `0 .. len - 1` of the bucket, so the bucket must
   * exist and hold at least two ids (the source panics otherwise), and its last id is never drawn.
   */
  method GetCardFromTier(cardSet: CardSet, tier: usize) returns (card: string)
    requires tier < |cardSet.tiers| && |cardSet.tiers[tier]| >= 2
    ensures exists i :: 0 <= i < |cardSet.tiers[tier]| - 1 && card == cardSet.tiers[tier][i]
    ensures NoDuplicates(cardSet.tiers[tier]) ==> card != cardSet.tiers[tier][|cardSet.tiers[tier]| - 1]
  {
    var bucket := cardSet.tiers[tier];
    var randomIndex :| 0 <= randomIndex < |bucket| - 1;
    card := bucket[randomIndex];
  }
}
