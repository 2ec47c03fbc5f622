/**
 * The battle loop of `PokemonBattle` (routes/web.php:195-226) as functions on
 * values: one iteration of the `while` loop is `Round`, the whole loop is `Run`.
 */
module BattleSpec {
  import opened Pokemons
  import opened History

  datatype Option<T> = None | Some(value: T)

  /** Which of the two stored combatants: `First` acts first in every round. */
  datatype Side = First | Second

  /**
   * The state of a battle at the top of the loop: the two combatants in acting
   * order, the round counter, the log, the `bothAreAlive` flag and the winner.
   */
  datatype State = State(one: Fighter, two: Fighter, round: int, log: seq<Entry>,
                         running: bool, winner: Option<Side>)

  /** The entries one turn appends: the exchange, then the defeat if the defender fell. */
  function TurnLog(round: int, attacker: Fighter, defender: Fighter): seq<Entry>
  {
    var damage := Damage(attacker.attack);
    [Dealt(round, attacker.name, damage, defender.name)]
    + if defender.Struck(damage).IsAlive() then [] else [Defeated(attacker.name, defender.name, round)]
  }

  /** The battle can only end if some combatant deals positive damage. */
  predicate SomeAttackPositive(s: State)
  {
    s.one.attack > 0 || s.two.attack > 0
  }

  /**
   * A measure the loop brings down: ten times the health of a combatant that a
   * positive attack hits every round, rounded down and cut off at zero.
   */
  function Progress(s: State): nat
  {
    var target := if s.one.attack > 0 then s.two else s.one;
    var tenths := (target.hp * 10.0).Floor;
    if tenths < 0 then 0 else tenths
  }

  /** One iteration of the loop: the first attacks, the second answers only if it survived. */
  function Round(s: State): (r: State)
    requires s.running
    ensures r.one.name == s.one.name && r.one.attack == s.one.attack
    ensures r.two.name == s.two.name && r.two.attack == s.two.attack
    ensures r.running ==> r.one.IsAlive() && r.two.IsAlive()
  {
    var two := s.two.Struck(Damage(s.one.attack));
    var log := s.log + TurnLog(s.round, s.one, s.two);
    if !two.IsAlive() then
      State(s.one, two, s.round + 1, log, false, Some(First))
    else
      var one := s.one.Struck(Damage(s.two.attack));
      var log' := log + TurnLog(s.round, two, s.one);
      if !one.IsAlive() then
        State(one, two, s.round + 1, log', false, Some(Second))
      else
        State(one, two, s.round + 1, log', true, s.winner)
  }

  /** A round in which the first attack kills: the second never answers. */
  lemma RoundFirstKills(s: State)
    requires s.running && !s.two.Struck(Damage(s.one.attack)).IsAlive()
    ensures Round(s) == State(s.one, s.two.Struck(Damage(s.one.attack)), s.round + 1,
                              s.log + TurnLog(s.round, s.one, s.two), false, Some(First))
  {
  }

  /** A round in which the second survives and answers. */
  lemma RoundSecondAnswers(s: State)
    requires s.running && s.two.Struck(Damage(s.one.attack)).IsAlive()
    ensures var two := s.two.Struck(Damage(s.one.attack));
      var one := s.one.Struck(Damage(s.two.attack));
      Round(s) == State(one, two, s.round + 1,
                        s.log + TurnLog(s.round, s.one, s.two) + TurnLog(s.round, two, s.one),
                        one.IsAlive(), if one.IsAlive() then s.winner else Some(Second))
  {
  }

  /** A round that does not end the battle brings the measure down, if some attack is positive. */
  lemma RoundProgress(s: State)
    requires s.running && SomeAttackPositive(s)
    ensures Round(s).running ==> Progress(Round(s)) < Progress(s)
  {
  }

  /** The loop run to completion from a running state. */
  function Run(s: State): (r: State)
    requires s.running && SomeAttackPositive(s)
    ensures !r.running
    decreases Progress(s)
  {
    var t := Round(s);
    RoundProgress(s);
    if t.running then Run(t) else t
  }

  /** The loop run for at most `k` iterations (it stops early once the battle is over). */
  function Rounds(s: State, k: nat): State
    decreases k
  {
    if k == 0 || !s.running then s else Rounds(Round(s), k - 1)
  }
}
