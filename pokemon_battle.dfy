/** The `PokemonBattle` class of routes/web.php, proved against `BattleSpec.Run`. */
module Battle {
  import opened Pokemons
  import opened History
  import opened BattleSpec
  import BattleProperties

  class PokemonBattle {
    var battleHistory: BattleHistory?
    var pokemonOne: Pokemon
    var pokemonTwo: Pokemon
    var winner: Pokemon?
    var bothAreAlive: bool
    var round: int

    /** The winner, once set, is one of the two combatants. */
    ghost predicate WinnerIsCombatant()
      reads this
    {
      winner == null || winner == pokemonOne || winner == pokemonTwo
    }

    /**
     * `oneGoesFirst` stands for the outcome of the coin flip `rand(1, 2) == 1`:
     * the combatants are stored in the given order or swapped.
     */
    constructor (one: Pokemon, two: Pokemon, oneGoesFirst: bool)
      ensures oneGoesFirst ==> pokemonOne == one && pokemonTwo == two
      ensures !oneGoesFirst ==> pokemonOne == two && pokemonTwo == one
      ensures battleHistory == null && winner == null && bothAreAlive && round == 1
      ensures WinnerIsCombatant()
    {
      battleHistory := null;
      winner := null;
      bothAreAlive := true;
      round := 1;
      if oneGoesFirst {
        pokemonOne := one;
        pokemonTwo := two;
      } else {
        pokemonOne := two;
        pokemonTwo := one;
      }
    }

    method SetBattleHistory(history: BattleHistory)
      modifies this`battleHistory
      ensures battleHistory == history
    {
      battleHistory := history;
    }

    function GetBattleHistory(): BattleHistory
      reads this
      requires battleHistory != null
    {
      battleHistory
    }

    method SetWinner(pokemon: Pokemon)
      modifies this`winner
      ensures winner == pokemon
    {
      winner := pokemon;
    }

    function GetWinner(): Pokemon
      reads this
      requires winner != null
    {
      winner
    }

    ghost function WinnerSide(): Option<Side>
      reads this
    {
      if winner == null then None
      else if winner == pokemonOne then Some(First)
      else Some(Second)
    }

    /** The battle as a value of the functional model. */
    ghost function Snapshot(): State
      reads this, pokemonOne, pokemonTwo, battleHistory
      requires battleHistory != null
    {
      State(pokemonOne.Value(), pokemonTwo.Value(), round, battleHistory.entries,
            bothAreAlive, WinnerSide())
    }

    /**
     * One turn: only the defender's health changes, by the attacker's damage;
     * the log gains the exchange and, on a kill, the defeat, and the battle ends
     * with the attacker as winner.
     */
    method ExecuteTurn(attacker: Pokemon, defender: Pokemon)
      requires battleHistory != null
      modifies defender`hp, battleHistory`entries, this`bothAreAlive, this`winner
      ensures defender.Value() == old(defender.Value()).Struck(Damage(attacker.attack))
      ensures attacker != defender ==> attacker.hp == old(attacker.hp)
      ensures battleHistory.entries
           == old(battleHistory.entries) + TurnLog(round, old(attacker.Value()), old(defender.Value()))
      ensures bothAreAlive == (old(bothAreAlive) && defender.IsAlive())
      ensures winner == if defender.IsAlive() then old(winner) else attacker
    {
      var damage := attacker.Attack();
      defender.TakeDamage(damage);
      battleHistory.AddEntry(Dealt(round, attacker.GetName(), damage, defender.GetName()));
      if !defender.IsAlive() {
        battleHistory.AddEntry(Defeated(attacker.GetName(), defender.GetName(), round));
        bothAreAlive := false;
        SetWinner(attacker);
      }
    }

    /**
     * Runs rounds until one combatant falls. The final state is the functional
     * model `Run` applied to the initial one, so the winner is the attacker of
     * the last turn and the loser has no health left.
     */
    method Execute()
      requires battleHistory != null && pokemonOne != pokemonTwo && WinnerIsCombatant()
      requires bothAreAlive ==> pokemonOne.attack > 0 || pokemonTwo.attack > 0
      modifies this`round, this`bothAreAlive, this`winner
      modifies pokemonOne`hp, pokemonTwo`hp, battleHistory`entries
      ensures WinnerIsCombatant() && !bothAreAlive
      ensures old(bothAreAlive) ==> Snapshot() == Run(old(Snapshot()))
      ensures !old(bothAreAlive) ==> Snapshot() == old(Snapshot())
      ensures old(bothAreAlive) ==>
        winner != null &&
        var loser := if winner == pokemonOne then pokemonTwo else pokemonOne;
        !loser.IsAlive() &&
        |battleHistory.entries| >= |old(battleHistory.entries)| + 2 &&
        battleHistory.entries[..|old(battleHistory.entries)|] == old(battleHistory.entries) &&
        battleHistory.entries[|battleHistory.entries| - 1] == Defeated(winner.name, loser.name, round - 1)
    {
      ghost var start := Snapshot();
      while bothAreAlive
        invariant WinnerIsCombatant()
        invariant bothAreAlive ==> start.running && Run(Snapshot()) == Run(start)
        invariant !bothAreAlive && start.running ==> Snapshot() == Run(start)
        invariant !start.running ==> Snapshot() == start
        decreases bothAreAlive, Progress(Snapshot())
      {
        ghost var before := Snapshot();
        RoundProgress(before);
        ExecuteTurn(pokemonOne, pokemonTwo);
        if bothAreAlive {
          RoundSecondAnswers(before);
          ExecuteTurn(pokemonTwo, pokemonOne);
        } else {
          RoundFirstKills(before);
        }
        round := round + 1;
        assert Snapshot() == Round(before);
      }
      if start.running {
        BattleProperties.RunOutcome(start);
      }
    }
  }
}
