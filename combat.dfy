/**
 * The combat turn state machine: the player's turn, card plays with their
 * guard clauses and effects, the enemy's turn, and the terminal victory
 * and defeat states. The player, enemy and deck services are the objects
 * of the Collaborators module, known only by their contracts.
 */
module Combat {
  import opened Ui
  import opened Collaborators

  datatype CombatState = PlayerTurn | EnemyTurn | Victory | Defeat

  /** The status line `combat_log`, one value per message the engine writes. */
  datatype LogMessage = Empty | CombatBegins | NotEnoughEnergy | YouAttack | YouGainBlock | YouDrawTwo | YouGainEnergy

  /** The hand size every turn draws up to. */
  const HandTarget: nat := 5

  /** Extra damage of an Execute card against a weakened enemy. */
  const ExecuteBonus: nat := 10

  /** Energy granted by an Energy card. */
  const EnergyBonus: nat := 2

  /** The enemy is at or below half of its maximum hp, halved with integer division. */
  predicate Weakened(hp: Byte, maxHp: Byte) {
    hp <= maxHp / 2
  }

  /** The damage an attack card deals; the bonus is added in 8 bits, as `damage += 10` on a `uint8_t` does. */
  function AttackDamage(card: Card, hp: Byte, maxHp: Byte): Byte {
    if Execute in card.flags && Weakened(hp, maxHp) then AddByte(card.attack, ExecuteBonus) else card.attack
  }

  /**
   * The Execute bonus applies exactly when the card has the Execute flag
   * and the enemy is weakened at the moment of the play; without it the
   * damage is the card's attack value.
   */
  lemma ExecuteBonusIff(card: Card, hp: Byte, maxHp: Byte)
    requires card.attack + ExecuteBonus < 256
    ensures AttackDamage(card, hp, maxHp) == card.attack + ExecuteBonus <==> Execute in card.flags && Weakened(hp, maxHp)
    ensures AttackDamage(card, hp, maxHp) == card.attack <==> !(Execute in card.flags && Weakened(hp, maxHp))
  {
  }

  /** With an attack value of 246 or more the 8-bit bonus wraps around and the Execute card deals less than its attack value. */
  lemma ExecuteBonusWraps(card: Card, hp: Byte, maxHp: Byte)
    requires card.attack + ExecuteBonus >= 256 && Execute in card.flags && Weakened(hp, maxHp)
    ensures AttackDamage(card, hp, maxHp) == card.attack + ExecuteBonus - 256 < card.attack
  {
  }

  /** The messages of a skill card's effects that apply, in the order they resolve: block, draw, energy. */
  function SkillMessages(card: Card): seq<LogMessage> {
    (if card.block > 0 then [YouGainBlock] else []) +
    (if Draw in card.flags then [YouDrawTwo] else []) +
    (if Energy in card.flags then [YouGainEnergy] else [])
  }

  /** The status a skill card leaves: the highest-priority effect that applies, or the previous status. */
  function SkillLog(card: Card, before: LogMessage): LogMessage {
    if Energy in card.flags then YouGainEnergy
    else if Draw in card.flags then YouDrawTwo
    else if card.block > 0 then YouGainBlock
    else before
  }

  /** The status a skill card leaves is the message of the last effect that applies, and is unchanged when none applies. */
  lemma SkillLogIsLast(card: Card, before: LogMessage)
    ensures var ms := SkillMessages(card);
      SkillLog(card, before) == if ms == [] then before else ms[|ms| - 1]
    ensures SkillLog(card, before) == before <==> SkillMessages(card) == [] || before == SkillMessages(card)[|SkillMessages(card)| - 1]
  {
  }

  /**
   * The three-attack scenario against an enemy at 20 of 20 hp: a plain
   * 6-damage attack leaves 14; a 4-damage Execute attack finds 14 above
   * half and leaves 10; the next finds 10 at half and deals 14, leaving 0.
   */
  lemma ExecuteScenario()
    ensures var strike := Card(1, Attack, 1, 6, 0, {});
      var execute := Card(2, Attack, 1, 4, 0, {Execute});
      var hp1 := Damaged(20, AttackDamage(strike, 20, 20));
      var hp2 := Damaged(hp1, AttackDamage(execute, hp1, 20));
      var hp3 := Damaged(hp2, AttackDamage(execute, hp2, 20));
      hp1 == 14 && hp2 == 10 && AttackDamage(execute, hp2, 20) == 14 && hp3 == 0
  {
  }

  /** A key that ends the player's turn. */
  predicate IsEndKey(key: char) {
    key == 'e' || key == 'E'
  }

  /** A key that plays one of the five hand cards. */
  predicate IsPlayKey(key: char) {
    '1' <= key <= '5'
  }

  /** Removing entry `i` of a hand that grew at its end removes entry `i` of the hand it grew from. */
  lemma RemoveKeepsPrefix(h0: seq<Card>, h1: seq<Card>, i: nat)
    requires i < |h0| <= |h1| && h1[..|h0|] == h0
    ensures h1[i] == h0[i]
    ensures (h1[..i] + h1[i + 1..])[..|h0| - 1] == h0[..i] + h0[i + 1..]
  {
    assert h1[i] == h1[..|h0|][i];
    var r := h1[..i] + h1[i + 1..];
    forall k | 0 <= k < |h0| - 1 ensures r[k] == (h0[..i] + h0[i + 1..])[k] {
      if k < i {
        assert r[k] == h1[k] == h1[..|h0|][k];
      } else {
        assert r[k] == h1[k + 1] == h1[..|h0|][k + 1];
      }
    }
  }

  /** The static combat state of `combat.c` and the services it drives. */
  class CombatEngine {
    var state: CombatState
    var log: LogMessage
    const player: Player
    const enemy: Enemy
    const deck: Deck

    constructor (player: Player, enemy: Enemy, deck: Deck)
      ensures this.player == player && this.enemy == enemy && this.deck == deck
      ensures state == PlayerTurn && log == Empty
    {
      this.player := player;
      this.enemy := enemy;
      this.deck := deck;
      state := PlayerTurn;
      log := Empty;
    }

    /**
     * `combat_init`: a fresh enemy and deck, full energy, no block, a hand
     * of five cards or every starting card when there are fewer, and the
     * player's turn.
     */
    method Init(enemyId: Byte)
      modifies this`state, this`log, player`energy, player`block, enemy, deck
      ensures state == PlayerTurn && log == CombatBegins
      ensures player.energy == player.maxEnergy && player.block == 0
      ensures enemy.kind == enemyId && enemy.hp == enemy.maxHp
      ensures deck.discardPile == [] && |deck.hand| == Min(HandTarget, |deck.starter|)
      ensures multiset(deck.Cards()) == multiset(deck.starter)
    {
      enemy.Init(enemyId);
      deck.Init();
      player.energy := player.maxEnergy;
      player.block := 0;
      deck.DrawToHandSize(HandTarget);
      state := PlayerTurn;
      log := CombatBegins;
    }

    /**
     * `combat_start_turn`: full energy, no block, the old hand discarded, a
     * hand of five cards or every card the deck holds when there are fewer,
     * and the player's turn. No card is created or lost; when the draw pile
     * alone covers the new hand, the discard pile is the old one with the
     * old hand on top.
     */
    method StartTurn()
      modifies this`state, player`energy, player`block, deck
      ensures state == PlayerTurn
      ensures player.energy == player.maxEnergy && player.block == 0
      ensures |deck.hand| == Min(HandTarget, |old(deck.Cards())|)
      ensures multiset(deck.Cards()) == multiset(old(deck.Cards()))
      ensures |old(deck.drawPile)| >= HandTarget ==> deck.discardPile == old(deck.discardPile) + old(deck.hand)
    {
      player.energy := player.maxEnergy;
      player.block := 0;
      deck.DiscardHand();
      deck.DrawToHandSize(HandTarget);
      state := PlayerTurn;
    }

    /**
     * `combat_player_play_card`. An index past the hand changes nothing; a
     * card the player cannot afford changes only the status. Otherwise the
     * cost is paid, the card's effects resolve, exactly that hand entry
     * moves to the discard pile (after the cards a Draw effect adds), and
     * the state becomes Victory exactly when the enemy is dead.
     */
    method PlayCard(handIndex: Byte)
      modifies this`state, this`log, player`energy, player`block, enemy`hp, deck
      ensures handIndex >= |old(deck.hand)| ==> unchanged(this, player, enemy, deck)
      ensures handIndex < |old(deck.hand)| && old(deck.hand[handIndex].cost > player.energy) ==>
        log == NotEnoughEnergy && state == old(state) && unchanged(player, enemy, deck)
      ensures handIndex < |old(deck.hand)| && old(deck.hand[handIndex].cost <= player.energy) ==>
        var card := old(deck.hand[handIndex]);
        var drawn := if card.kind == Skill && Draw in card.flags then 2 else 0;
        && player.energy == (if card.kind == Skill && Energy in card.flags then AddByte(old(player.energy) - card.cost, EnergyBonus) else old(player.energy) - card.cost)
        && player.block == (if card.kind == Skill && card.block > 0 then AddByte(old(player.block), card.block) else old(player.block))
        && enemy.hp == (if card.kind == Attack then Damaged(old(enemy.hp), AttackDamage(card, old(enemy.hp), enemy.maxHp)) else old(enemy.hp))
        && log == (if card.kind == Attack then YouAttack else SkillLog(card, old(log)))
        && |deck.hand| == |old(deck.hand)| - 1 + Min(drawn, old(deck.Available()))
        && deck.hand[..|old(deck.hand)| - 1] == old(deck.hand[..handIndex] + deck.hand[handIndex + 1..])
        && |deck.discardPile| > 0 && deck.discardPile[|deck.discardPile| - 1] == card
        && multiset(deck.Cards()) == multiset(old(deck.Cards()))
        && (|old(deck.drawPile)| >= drawn ==> deck.discardPile == old(deck.discardPile) + [card])
        && (drawn == 0 ==> deck.drawPile == old(deck.drawPile))
        && state == if enemy.hp == 0 then Victory else old(state)
    {
      if handIndex >= |deck.hand| {
        return;
      }
      var card := deck.hand[handIndex];
      var ok := player.CanPlayCard(card);
      if !ok {
        log := NotEnoughEnergy;
        return;
      }
      PlayAffordable(handIndex, card);
    }

    /** The successful play of hand entry `i`, which the player can afford. */
    method PlayAffordable(i: nat, card: Card)
      requires i < |deck.hand| && deck.hand[i] == card && card.cost <= player.energy
      modifies this`state, this`log, player`energy, player`block, enemy`hp, deck
      ensures player.energy == (if card.kind == Skill && Energy in card.flags then AddByte(old(player.energy) - card.cost, EnergyBonus) else old(player.energy) - card.cost)
      ensures player.block == (if card.kind == Skill && card.block > 0 then AddByte(old(player.block), card.block) else old(player.block))
      ensures enemy.hp == (if card.kind == Attack then Damaged(old(enemy.hp), AttackDamage(card, old(enemy.hp), enemy.maxHp)) else old(enemy.hp))
      ensures log == (if card.kind == Attack then YouAttack else SkillLog(card, old(log)))
      ensures var drawn := if card.kind == Skill && Draw in card.flags then 2 else 0;
        && |deck.hand| == |old(deck.hand)| - 1 + Min(drawn, old(deck.Available()))
        && deck.hand[..|old(deck.hand)| - 1] == old(deck.hand[..i] + deck.hand[i + 1..])
        && |deck.discardPile| > 0 && deck.discardPile[|deck.discardPile| - 1] == card
        && multiset(deck.Cards()) == multiset(old(deck.Cards()))
        && (|old(deck.drawPile)| >= drawn ==> deck.discardPile == old(deck.discardPile) + [card])
        && (drawn == 0 ==> deck.drawPile == old(deck.drawPile))
      ensures state == if enemy.hp == 0 then Victory else old(state)
    {
      ghost var drawn := if card.kind == Skill && Draw in card.flags then 2 else 0;
      ghost var hand0, draw0, discard0, available0, cards0 := deck.hand, deck.drawPile, deck.discardPile, deck.Available(), multiset(deck.Cards());
      PayAndResolve(card);
      ghost var energy1, block1, log1, hp1 := player.energy, player.block, log, enemy.hp;
      DiscardPlayed(i, card, drawn, hand0, draw0, discard0, available0, cards0);
      assert player.energy == energy1 && player.block == block1 && log == log1 && enemy.hp == hp1;
      var dead := enemy.IsDead();
      if dead {
        state := Victory;
      }
    }

    /**
     * The played card, still at `i` of the hand dealt before it resolved
     * (`hand0`, with draw pile `draw0` and discard pile `discard0`), goes to
     * the discard pile after `drawn` draws were asked for.
     */
    method DiscardPlayed(i: nat, card: Card, ghost drawn: nat, ghost hand0: seq<Card>, ghost draw0: seq<Card>,
                         ghost discard0: seq<Card>, ghost available0: nat, ghost cards0: multiset<Card>)
      requires i < |hand0| && hand0[i] == card
      requires |deck.hand| == |hand0| + Min(drawn, available0) && deck.hand[..|hand0|] == hand0
      requires multiset(deck.Cards()) == cards0
      requires |draw0| >= drawn ==> deck.discardPile == discard0
      requires drawn == 0 ==> deck.drawPile == draw0
      modifies deck
      ensures |deck.hand| == |hand0| - 1 + Min(drawn, available0)
      ensures deck.hand[..|hand0| - 1] == hand0[..i] + hand0[i + 1..]
      ensures |deck.discardPile| > 0 && deck.discardPile[|deck.discardPile| - 1] == card
      ensures multiset(deck.Cards()) == cards0
      ensures |draw0| >= drawn ==> deck.discardPile == discard0 + [card]
      ensures drawn == 0 ==> deck.drawPile == draw0
    {
      RemoveKeepsPrefix(hand0, deck.hand, i);
      deck.PlayCard(i);
    }

    /** The cost is paid, then the card's effects resolve. */
    method PayAndResolve(card: Card)
      requires card.cost <= player.energy
      modifies this`log, player`energy, player`block, enemy`hp, deck
      ensures player.energy == (if card.kind == Skill && Energy in card.flags then AddByte(old(player.energy) - card.cost, EnergyBonus) else old(player.energy) - card.cost)
      ensures player.block == if card.kind == Skill && card.block > 0 then AddByte(old(player.block), card.block) else old(player.block)
      ensures enemy.hp == if card.kind == Attack then Damaged(old(enemy.hp), AttackDamage(card, old(enemy.hp), enemy.maxHp)) else old(enemy.hp)
      ensures log == if card.kind == Attack then YouAttack else SkillLog(card, old(log))
      ensures var drawn := if card.kind == Skill && Draw in card.flags then 2 else 0;
        && |deck.hand| == |old(deck.hand)| + Min(drawn, old(deck.Available()))
        && deck.hand[..|old(deck.hand)|] == old(deck.hand)
        && multiset(deck.Cards()) == multiset(old(deck.Cards()))
        && (|old(deck.drawPile)| >= drawn ==> deck.discardPile == old(deck.discardPile))
        && (drawn == 0 ==> deck.drawPile == old(deck.drawPile))
    {
      player.SpendEnergy(card.cost);
      Resolve(card);
    }

    /** The effects of a card, by its type. */
    method Resolve(card: Card)
      modifies this`log, player`energy, player`block, enemy`hp, deck
      ensures player.energy == if card.kind == Skill && Energy in card.flags then AddByte(old(player.energy), EnergyBonus) else old(player.energy)
      ensures player.block == if card.kind == Skill && card.block > 0 then AddByte(old(player.block), card.block) else old(player.block)
      ensures enemy.hp == if card.kind == Attack then Damaged(old(enemy.hp), AttackDamage(card, old(enemy.hp), enemy.maxHp)) else old(enemy.hp)
      ensures log == if card.kind == Attack then YouAttack else SkillLog(card, old(log))
      ensures var drawn := if card.kind == Skill && Draw in card.flags then 2 else 0;
        && |deck.hand| == |old(deck.hand)| + Min(drawn, old(deck.Available()))
        && deck.hand[..|old(deck.hand)|] == old(deck.hand)
        && multiset(deck.Cards()) == multiset(old(deck.Cards()))
        && (|old(deck.drawPile)| >= drawn ==> deck.discardPile == old(deck.discardPile))
        && (drawn == 0 ==> deck.drawPile == old(deck.drawPile))
    {
      match card.kind {
        case Attack => ResolveAttack(card);
        case Skill => ResolveSkill(card);
      }
    }

    /** The attack branch of a card play: the damage, with the Execute bonus against a weakened enemy, and the status. */
    method ResolveAttack(card: Card)
      modifies this`log, enemy`hp
      ensures enemy.hp == Damaged(old(enemy.hp), AttackDamage(card, old(enemy.hp), enemy.maxHp))
      ensures log == YouAttack
    {
      var damage := card.attack;
      if Execute in card.flags {
        if enemy.hp <= enemy.maxHp / 2 {
          damage := AddByte(damage, ExecuteBonus);
        }
      }
      enemy.TakeDamage(damage);
      log := YouAttack;
    }

    /** The skill branch of a card play: block, then two draws, then energy, each writing its status. */
    method ResolveSkill(card: Card)
      modifies this`log, player`block, player`energy, deck
      ensures player.block == if card.block > 0 then AddByte(old(player.block), card.block) else old(player.block)
      ensures player.energy == if Energy in card.flags then AddByte(old(player.energy), EnergyBonus) else old(player.energy)
      ensures log == SkillLog(card, old(log))
      ensures var drawn := if Draw in card.flags then 2 else 0;
        && |deck.hand| == |old(deck.hand)| + Min(drawn, old(deck.Available()))
        && deck.hand[..|old(deck.hand)|] == old(deck.hand)
        && multiset(deck.Cards()) == multiset(old(deck.Cards()))
        && (|old(deck.drawPile)| >= drawn ==> deck.discardPile == old(deck.discardPile))
        && (drawn == 0 ==> deck.drawPile == old(deck.drawPile))
    {
      if card.block > 0 {
        player.GainBlock(card.block);
        log := YouGainBlock;
      }
      if Draw in card.flags {
        DrawTwo();
        log := YouDrawTwo;
      }
      if Energy in card.flags {
        player.energy := AddByte(player.energy, EnergyBonus);
        log := YouGainEnergy;
      }
    }

    /** The Draw effect: two draws, so two cards join the hand unless fewer are available. */
    method DrawTwo()
      modifies deck
      ensures |deck.hand| == |old(deck.hand)| + Min(2, old(deck.Available()))
      ensures deck.hand[..|old(deck.hand)|] == old(deck.hand)
      ensures multiset(deck.Cards()) == multiset(old(deck.Cards()))
      ensures |old(deck.drawPile)| >= 2 ==> deck.discardPile == old(deck.discardPile)
    {
      deck.DrawCard();
      deck.DrawCard();
    }

    /**
     * `combat_end_turn`: the enemy acts. A player left at 0 hp loses, and
     * energy and hand stay as the enemy's action left them; otherwise a new
     * turn starts, so the enemy's turn is never visible after the call.
     */
    method EndTurn()
      modifies this`state, player`hp, player`block, player`energy, enemy`intent, deck
      ensures player.hp <= old(player.hp) && state != EnemyTurn
      ensures player.hp == 0 ==>
        state == Defeat && player.energy == old(player.energy) && player.block <= old(player.block) &&
        deck.hand == old(deck.hand) && deck.drawPile == old(deck.drawPile) && deck.discardPile == old(deck.discardPile)
      ensures player.hp != 0 ==>
        state == PlayerTurn && player.energy == player.maxEnergy && player.block == 0 &&
        |deck.hand| == Min(HandTarget, |old(deck.Cards())|) &&
        multiset(deck.Cards()) == multiset(old(deck.Cards())) &&
        (|old(deck.drawPile)| >= HandTarget ==> deck.discardPile == old(deck.discardPile) + old(deck.hand))
    {
      state := EnemyTurn;
      enemy.ExecuteAction(player);
      if player.hp == 0 {
        state := Defeat;
        return;
      }
      StartTurn();
    }

    /** `combat_get_state`. */
    method GetState() returns (s: CombatState)
      ensures s == state
    {
      s := state;
    }

    /**
     * The loop of `combat_run`, fed the keys the player presses: a key is
     * read only while it is the player's turn (`seen` records the state at
     * each read), and the loop stops at the first end-turn key, at the end
     * of the combat, or when the keys run out. Returns how many keys it read.
     */
    method Run(keys: seq<char>) returns (consumed: nat, ghost seen: seq<CombatState>)
      modifies this`state, this`log, player`energy, player`block, player`hp, enemy`hp, enemy`intent, deck
      ensures consumed <= |keys|
      ensures |seen| == consumed && forall j :: 0 <= j < consumed ==> seen[j] == PlayerTurn
      ensures old(state) != PlayerTurn ==> consumed == 0 && unchanged(this, player, enemy, deck)
      ensures forall j :: 0 <= j < consumed - 1 ==> !IsEndKey(keys[j])
      ensures old(state) == PlayerTurn ==> state != EnemyTurn
      ensures old(state) == PlayerTurn && state == Victory ==> 0 < consumed && IsPlayKey(keys[consumed - 1])
      ensures old(state) == PlayerTurn && consumed < |keys| ==>
        0 < consumed && (IsEndKey(keys[consumed - 1]) || state == Victory)
    {
      consumed, seen := 0, [];
      while state == PlayerTurn && consumed < |keys|
        invariant consumed <= |keys|
        invariant |seen| == consumed && forall j :: 0 <= j < consumed ==> seen[j] == PlayerTurn
        invariant forall j :: 0 <= j < consumed ==> !IsEndKey(keys[j])
        invariant consumed == 0 ==> unchanged(this, player, enemy, deck)
        invariant old(state) != PlayerTurn ==> consumed == 0
        invariant old(state) == PlayerTurn ==> state == PlayerTurn || state == Victory
        invariant state == Victory && old(state) == PlayerTurn ==> 0 < consumed && IsPlayKey(keys[consumed - 1])
        decreases |keys| - consumed
      {
        var key := keys[consumed];
        seen := seen + [state];
        consumed := consumed + 1;
        if IsPlayKey(key) {
          PlayCard((key as int - '1' as int) as Byte);
        } else if IsEndKey(key) {
          EndTurn();
          break;
        }
      }
    }
  }
}
