# Pokemon battle, modelled in Dafny

This project models the battle simulation of a small PHP web service that
pits two Pokemon against each other. Three classes make up the battle:

- `Pokemon` holds a name, a health value (`hp`) and an attack stat. Its
  attack deals one tenth of the stat as damage. Taking damage lowers `hp`
  and never floors it at zero. A Pokemon is alive while `hp > 0`.
- `PokemonBattle` stores the two combatants in one of two orders, chosen by
  a coin flip. It then runs rounds until one of them falls. In each round the
  first attacks. The second answers only if it survived. Every turn is
  logged, a killing turn also logs a defeat and records the attacker as
  winner, and the round counter advances once per loop iteration.
- `BattleHistory` is an append-only log.

The model has five modules:

- `Pokemons` (pokemon.dfy): `Damage`, the value type `Fighter`, and the
  class `Pokemon` with its fields, getters, `Attack`, `IsAlive` and
  `TakeDamage`.
- `History` (battle_history.dfy): the log entry type `Entry` and the class
  `BattleHistory`.
- `BattleSpec` (battle_spec.dfy): the battle loop as functions on values.
  `Round` is one iteration of the `while` loop and `Run` is the whole loop.
- `BattleProperties` (battle_properties.dfy): what `Run` guarantees. This
  covers the single winner, the shape of the log, the round numbering, the
  final health values, a bound on the number of rounds, and when the loop
  ends.
- `Battle` (pokemon_battle.dfy): the class `PokemonBattle`. Its `Execute`
  method is a `while` loop proved to leave the battle in the state
  `Run(old(Snapshot()))`.

Modelling choices:

- The coin flip `rand(1, 2) == 1` is the constructor parameter `oneGoesFirst`.
- Health is an exact `real`. Damage is `attack / 10` exactly.
- Log entries are the structured values `Dealt(round, attacker, damage, defender)`
  and `Defeated(attacker, defender, round)`, not text.
- The getters `GetName`, `GetHp`, `GetAttack`, `GetEntries`,
  `GetBattleHistory` and `GetWinner`, and the predicate `IsAlive`, are
  functions that read one field or compare it with zero (routes/web.php:113-134,
  149-152, 241-244, 259-262, 287-290). They carry no contract of their own.
  The contracts of `TakeDamage`, `ExecuteTurn` and `Execute` use them.
  Likewise `BattleSpec.TurnLog` only builds the entries one turn appends to the
  log (routes/web.php:220-223). `ExecuteTurn`, `RoundBothSurvive`, `RoundFinal`
  and `RunLog` state what those entries are.

The model follows the code as written; in particular:

- Health can become fractional after a hit, since damage is one tenth of the
  attack. This happens whenever the attack stat is not a multiple of 10.
- The round counter is also incremented in the final iteration. After
  `Execute` it is one past the round of the defeat.
- The loop does not check whether a combatant is alive before the first
  round. The combatant that acts first still attacks in round 1 even if it starts
  with `hp <= 0`.
- The winner is recorded inside the loop, in the killing turn.

## Model

| member | source | states |
|---|---|---|
| Pokemons.Damage | routes/web.php:140-143 | the damage is exactly one tenth of the attack stat, and it is positive iff the stat is |
| Pokemons.Pokemon.constructor | routes/web.php:102-107 | the new Pokemon holds the given name, health and attack stat |
| Pokemons.Pokemon.Attack | routes/web.php:140-143 | a Pokemon's attack deals one tenth of its own attack stat and changes nothing |
| Pokemons.Pokemon.TakeDamage | routes/web.php:149-161 | health falls by exactly the damage, with no floor at zero; name and attack are unchanged; the Pokemon is alive afterwards iff its old health exceeded the damage |
| History.BattleHistory.constructor | routes/web.php:272 | a new history is empty |
| History.BattleHistory.AddEntry | routes/web.php:278-281 | the entry is appended at the end, and every earlier entry keeps its place and value |
| Battle.PokemonBattle.constructor | routes/web.php:171-190 | the stored pair is the arguments in order when the coin comes up 1, swapped otherwise; the battle runs, round 1, no winner, no history yet |
| Battle.PokemonBattle.SetBattleHistory | routes/web.php:232-235 | the battle now logs to the given history |
| Battle.PokemonBattle.SetWinner | routes/web.php:250-253 | the given Pokemon is recorded as winner |
| Battle.PokemonBattle.ExecuteTurn | routes/web.php:216-226 | only the defender's health changes, by the attacker's damage; the log gains the exchange, and on a kill the defeat with the same round; a kill ends the battle and makes the attacker the winner, otherwise flag and winner are unchanged |
| Battle.PokemonBattle.Execute | routes/web.php:195-209 | the final battle state is `Run` of the initial one; the winner is one of the two combatants, the other has `hp <= 0`, old log entries are kept, and the last entry is the winner's defeat of the loser in the final round |
| BattleSpec.Round | routes/web.php:197-207 | names and attack stats never change; if the battle goes on, both combatants are alive |
| BattleSpec.RoundProgress | routes/web.php:199-206 | when some attack stat is positive, a round after which the battle goes on lowers the termination measure (the health of a target that a positive attack hits) |
| BattleSpec.Run | routes/web.php:197-207 | the loop, started with some positive attack stat, ends with the battle finished |
| BattleProperties.RoundBothSurvive | routes/web.php:199-206 | a round both survive hits each combatant once and appends the two exchanges of that round |
| BattleProperties.RoundFinal | routes/web.php:199-206 | a final round is won by the first with one exchange and a defeat, or by the second with two exchanges and a defeat, in that round |
| BattleProperties.RunOneWinner | routes/web.php:197-207 | exactly one winner is set; the loser ends with `hp <= 0`; the winner is alive (the first, if it was alive at the start); names and attacks unchanged |
| BattleProperties.RunLog | routes/web.php:197-207 | old entries stay in front; the new entries are exchanges alternating first, second, first, ..., each carrying its round (counted from the starting round), attacker, damage and defender; only the last new entry is not an exchange |
| BattleProperties.RunLogEnd | routes/web.php:197-207 | with n new entries the counter has advanced by n/2 rounds, the first combatant wins iff n is even, and the last entry is the winner's defeat of the loser in the final round |
| BattleProperties.RunOutcome | routes/web.php:197-207 | the battle ends with a winner, the loser has `hp <= 0`, the old log is kept in front, and the last entry is the winner's defeat of the loser in the final round |
| BattleProperties.RunHealthSecond | routes/web.php:216-219 | the second combatant ends with its starting health less the first's damage times the number of rounds played |
| BattleProperties.RunHealthFirst | routes/web.php:216-219 | the first combatant ends with its starting health less the second's damage times the number of rounds it was answered in (one fewer if the first won) |
| BattleProperties.RunRoundBoundSecond | routes/web.php:197-207 | at least one round is played; with a positive first attack against a live second, all rounds before the last dealt it less damage than its starting health |
| BattleProperties.RunRoundBoundFirst | routes/web.php:197-207 | at least one round is played; with a positive second attack against a live first, all rounds before the last dealt it less damage than its starting health |
| BattleProperties.RunRoundBound | routes/web.php:197-207 | with a positive attack against a live defender, all rounds before the last dealt less damage in total than the defender's starting health |
| BattleProperties.RunIsRounds | routes/web.php:197-207 | `Run` is the loop body iterated exactly as many times as the counter advanced |
| BattleProperties.NoPositiveAttackNeverEnds | routes/web.php:197-207 | with no positive attack stat and both alive, the battle is still running after any number of rounds, and no one has lost health |
| BattleProperties.EndsIffSomeAttackPositive | routes/web.php:197-207 | between two live combatants, the loop ends after some number of rounds iff some attack stat is positive |

## Left out

- The HTTP routes (routes/web.php:10-58): routing, JSON encoding and the handling of client exceptions are I/O.
- `PokemonApiRepository::getPokemonData` (routes/web.php:65-93): it makes a network call and reads the decoded JSON response. The model takes name, health and attack as plain values.
- The random number generator behind `rand(1, 2)`: both outcomes are covered through the constructor's `oneGoesFirst` parameter.
- IEEE floating point: `attack * .1` is exact rational arithmetic here, and the text formatting of log messages is replaced by structured entries.
- Battle.PokemonBattle.Execute: requires the history to have been set. Calling it earlier fails in PHP, and that failure is not modelled.
- Battle.PokemonBattle.Execute: requires the two combatants to be distinct objects. The only caller passes two separately fetched Pokemon, so the self-battle case is not modelled.
- Battle.PokemonBattle.Execute: requires some attack stat to be positive while the battle is running. With no positive attack stat and both combatants alive the PHP loop runs forever; `NoPositiveAttackNeverEnds` proves this on the functional model. The requires also excludes inputs on which PHP does end without a positive attack. For example, with both attack stats 0 and the first combatant at `hp` 0, the second's zero-damage answer defeats the first in round 1. Such battles are not modelled by `Execute`.
- Battle.PokemonBattle.GetBattleHistory and GetWinner: require the field to be set. PHP would raise a type error for an unset field, and that error is not modelled.
