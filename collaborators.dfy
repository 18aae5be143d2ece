/**
 * The services the combat engine calls: the card records, the player, the
 * enemy and the deck. Only the contracts below are relied on by the
 * combat model; the bodies are minimal stand-ins that meet them (no
 * shuffling, a single-number intent).
 */
module Collaborators {
  import opened Ui

  datatype CardType = Attack | Skill

  /** The independent effect flags of a card. */
  datatype CardFlag = Execute | Draw | Energy

  /** A card record as the catalog returns it. */
  datatype Card = Card(id: Byte, kind: CardType, cost: Byte, attack: Byte, block: Byte, flags: set<CardFlag>)

  /** `a + b` in a `uint8_t`: the sum wraps around past 255. */
  function AddByte(a: Byte, b: nat): (r: Byte)
    ensures a + b < 256 ==> r == a + b
    ensures 256 <= a + b < 512 ==> r == a + b - 256
  {
    (a + b) % 256
  }

  /** Enemy hp after `amount` damage: clamped at zero, never negative. */
  function Damaged(hp: Byte, amount: Byte): (r: Byte)
    ensures r <= hp
    ensures r == 0 <==> amount >= hp
    ensures r > 0 ==> hp - r == amount
  {
    if amount >= hp then 0 else hp - amount
  }

  /** The global `player` record. */
  class Player {
    var hp: Byte
    var maxHp: Byte
    var energy: Byte
    var maxEnergy: Byte
    var block: Byte

    constructor (hp: Byte, maxHp: Byte, maxEnergy: Byte)
      ensures this.hp == hp && this.maxHp == maxHp && this.maxEnergy == maxEnergy
      ensures energy == maxEnergy && block == 0
    {
      this.hp := hp;
      this.maxHp := maxHp;
      this.maxEnergy := maxEnergy;
      this.energy := maxEnergy;
      this.block := 0;
    }

    /** `player_can_play_card`: the card costs no more than the energy left. */
    method CanPlayCard(card: Card) returns (ok: bool)
      ensures ok <==> card.cost <= energy
    {
      ok := card.cost <= energy;
    }

    /** `player_spend_energy`, called only with an affordable amount. */
    method SpendEnergy(amount: Byte)
      requires amount <= energy
      modifies this`energy
      ensures energy == old(energy) - amount
    {
      energy := energy - amount;
    }

    /** `player_gain_block`: an 8-bit addition. */
    method GainBlock(amount: Byte)
      modifies this`block
      ensures block == AddByte(old(block), amount)
    {
      block := AddByte(block, amount);
    }
  }

  /** The enemy's telegraphed next action. */
  datatype Intent = AttackIntent(magnitude: Byte) | DefendIntent(magnitude: Byte)

  /** The global `current_enemy` record. */
  class Enemy {
    var kind: Byte
    var hp: Byte
    var maxHp: Byte
    var intent: Intent

    constructor (maxHp: Byte, intent: Intent)
      ensures this.maxHp == maxHp && hp == maxHp && this.intent == intent
    {
      kind := 0;
      this.maxHp := maxHp;
      hp := maxHp;
      this.intent := intent;
    }

    /** `enemy_init`: enemy `id` at full health. */
    method Init(id: Byte)
      modifies this
      ensures kind == id && hp == maxHp
    {
      kind := id;
      hp := maxHp;
    }

    /** `enemy_take_damage`: hp drops by the damage, clamped at zero. */
    method TakeDamage(amount: Byte)
      modifies this`hp
      ensures hp == Damaged(old(hp), amount)
    {
      hp := Damaged(hp, amount);
    }

    /** `enemy_is_dead`. */
    method IsDead() returns (dead: bool)
      ensures dead <==> hp == 0
    {
      dead := hp == 0;
    }

    /** `enemy_execute_action`: may lower the player's hp and block, and touches nothing else of the player; of the enemy, only its intent may change. */
    method ExecuteAction(p: Player)
      modifies this`intent, p`hp, p`block
      ensures p.hp <= old(p.hp) && p.block <= old(p.block)
    {
      match intent {
        case AttackIntent(magnitude) =>
          var absorbed := if magnitude <= p.block then magnitude else p.block;
          p.block := p.block - absorbed;
          p.hp := Damaged(p.hp, magnitude - absorbed);
        case DefendIntent(_) =>
      }
    }
  }

  /** The smaller of two numbers. */
  function Min(a: int, b: int): int {
    if a <= b then a else b
  }

  /**
   * The deck service: hand, draw pile and discard pile. A draw from an
   * empty draw pile first turns the discard pile into the draw pile, so
   * every card outside the hand is available to draw; no card is ever
   * created or lost.
   */
  class Deck {
    const starter: seq<Card>
    var hand: seq<Card>
    var drawPile: seq<Card>
    var discardPile: seq<Card>

    constructor (starter: seq<Card>)
      ensures this.starter == starter && hand == [] && drawPile == [] && discardPile == []
    {
      this.starter := starter;
      hand, drawPile, discardPile := [], [], [];
    }

    /** Every card the deck holds. */
    function Cards(): seq<Card>
      reads this
    {
      hand + drawPile + discardPile
    }

    /** Number of cards a draw can still reach: the draw pile and the discard pile. */
    function Available(): nat
      reads this
    {
      |drawPile| + |discardPile|
    }

    /** `deck_init`: an empty hand and discard pile, the starting cards in the draw pile. */
    method Init()
      modifies this`hand, this`drawPile, this`discardPile
      ensures hand == [] && discardPile == [] && multiset(drawPile) == multiset(starter)
    {
      hand, drawPile, discardPile := [], starter, [];
    }

    /**
     * `deck_draw_card`: one card joins the end of the hand exactly when one
     * is available. The top of a non-empty draw pile is taken and the
     * discard pile is untouched; an empty draw pile is first refilled from
     * the discard pile.
     */
    method DrawCard()
      modifies this`hand, this`drawPile, this`discardPile
      ensures |hand| == |old(hand)| + (if old(Available()) > 0 then 1 else 0)
      ensures hand[..|old(hand)|] == old(hand)
      ensures Available() == old(Available()) - (if old(Available()) > 0 then 1 else 0)
      ensures multiset(Cards()) == multiset(old(Cards()))
      ensures old(drawPile) != [] ==> hand == old(hand) + [old(drawPile[0])] && drawPile == old(drawPile[1..]) && discardPile == old(discardPile)
      ensures discardPile == old(discardPile) || discardPile == []
    {
      if drawPile == [] {
        Refill();
      }
      if drawPile != [] {
        TakeTop();
      }
    }

    /** An empty draw pile takes over the discard pile. */
    method Refill()
      requires drawPile == []
      modifies this`drawPile, this`discardPile
      ensures drawPile == old(discardPile) && discardPile == []
      ensures Cards() == old(Cards())
    {
      drawPile, discardPile := discardPile, [];
      assert Cards() == hand + drawPile;
    }

    /** The top of the draw pile moves to the end of the hand. */
    method TakeTop()
      requires drawPile != []
      modifies this`hand, this`drawPile
      ensures hand == old(hand) + [old(drawPile[0])] && drawPile == old(drawPile[1..])
      ensures multiset(Cards()) == multiset(old(Cards()))
    {
      assert drawPile == [drawPile[0]] + drawPile[1..];
      hand := hand + [drawPile[0]];
      drawPile := drawPile[1..];
    }

    /**
     * `deck_draw_to_hand_size`: draws onto the end of the hand until it
     * holds `n` cards or nothing is left to draw. When the draw pile alone
     * covers the shortfall the discard pile is untouched.
     */
    method DrawToHandSize(n: nat)
      modifies this`hand, this`drawPile, this`discardPile
      ensures |hand| == if |old(hand)| >= n then |old(hand)| else Min(n, |old(hand)| + old(Available()))
      ensures hand[..|old(hand)|] == old(hand)
      ensures multiset(Cards()) == multiset(old(Cards()))
      ensures |old(hand)| + |old(drawPile)| >= n ==> discardPile == old(discardPile)
      ensures discardPile == old(discardPile) || discardPile == []
    {
      while |hand| < n && Available() > 0
        invariant |old(hand)| <= |hand| && hand[..|old(hand)|] == old(hand)
        invariant |hand| + Available() == |old(hand)| + old(Available())
        invariant |old(hand)| < n ==> |hand| <= n
        invariant |old(hand)| >= n ==> |hand| == |old(hand)|
        invariant multiset(Cards()) == multiset(old(Cards()))
        invariant |old(hand)| + |old(drawPile)| >= n ==>
          discardPile == old(discardPile) && |hand| + |drawPile| == |old(hand)| + |old(drawPile)|
        invariant discardPile == old(discardPile) || discardPile == []
        decreases Available()
      {
        DrawCard();
      }
    }

    /** `deck_discard_hand`: the whole hand goes onto the discard pile. */
    method DiscardHand()
      modifies this`hand, this`discardPile
      ensures hand == [] && discardPile == old(discardPile) + old(hand)
      ensures multiset(Cards()) == multiset(old(Cards()))
    {
      discardPile := discardPile + hand;
      hand := [];
    }

    /** `deck_play_card`: hand entry `i` moves to the discard pile, the entries after it move down one place. */
    method PlayCard(i: nat)
      requires i < |hand|
      modifies this`hand, this`discardPile
      ensures hand == old(hand[..i] + hand[i + 1..])
      ensures discardPile == old(discardPile) + [old(hand[i])]
      ensures multiset(Cards()) == multiset(old(Cards()))
    {
      assert hand == hand[..i] + [hand[i]] + hand[i + 1..];
      discardPile := discardPile + [hand[i]];
      hand := hand[..i] + hand[i + 1..];
    }
  }
}
