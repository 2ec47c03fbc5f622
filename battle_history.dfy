/** The append-only battle log: the `BattleHistory` class of routes/web.php. */
module History {

  /**
   * One line of the log. `Dealt` is "Round n: A dealt d to B" and `Defeated`
   * is "A has defeated B in round n!".
   */
  datatype Entry =
    | Dealt(round: int, attacker: string, damage: real, defender: string)
    | Defeated(attacker: string, defender: string, round: int)

  class BattleHistory {
    var entries: seq<Entry>

    constructor ()
      ensures entries == []
    {
      entries := [];
    }

    /** Appends `entry` at the end; earlier entries are left as they were. */
    method AddEntry(entry: Entry)
      modifies this`entries
      ensures entries == old(entries) + [entry]
    {
      entries := entries + [entry];
    }

    function GetEntries(): seq<Entry>
      reads this
    {
      entries
    }
  }
}
