/** A combatant of the battle: the `Pokemon` class of routes/web.php. */
module Pokemons {

  /** The damage an attack stat deals: exactly one tenth of it. */
  function Damage(attack: int): (damage: real)
    ensures damage * 10.0 == attack as real
    ensures damage > 0.0 <==> attack > 0
  {
    attack as real / 10.0
  }

  /** The value of a combatant at one moment: what a battle reads of a `Pokemon`. */
  datatype Fighter = Fighter(name: string, hp: real, attack: int)
  {
    predicate IsAlive() { hp > 0.0 }

    /** The combatant after it has taken `damage`; health is not floored at zero. */
    function Struck(damage: real): Fighter { this.(hp := hp - damage) }
  }

  class Pokemon {
    var name: string
    var hp: real
    var attack: int

    constructor (name: string, hp: int, attack: int)
      ensures this.name == name && this.hp == hp as real && this.attack == attack
    {
      this.name := name;
      this.hp := hp as real;
      this.attack := attack;
    }

    function Value(): Fighter
      reads this
    {
      Fighter(name, hp, attack)
    }

    function GetName(): string
      reads this
    {
      name
    }

    function GetHp(): real
      reads this
    {
      hp
    }

    function GetAttack(): int
      reads this
    {
      attack
    }

    /** The damage this Pokemon deals: one tenth of its attack stat. */
    function Attack(): (damage: real)
      reads this
      ensures damage * 10.0 == attack as real
    {
      Damage(attack)
    }

    predicate IsAlive()
      reads this
    {
      Value().IsAlive()
    }

    method TakeDamage(damage: real)
      modifies this`hp
      ensures hp == old(hp) - damage
      ensures name == old(name) && attack == old(attack)
      ensures Value() == old(Value()).Struck(damage)
      ensures IsAlive() <==> old(hp) > damage
    {
      hp := hp - damage;
    }
  }
}
