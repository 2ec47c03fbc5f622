/** What the battle loop of routes/web.php:195-226 guarantees, proved on `BattleSpec`. */
module BattleProperties {
  import opened Pokemons
  import opened History
  import opened BattleSpec

  /**
   * The `j`-th exchange of a battle started in `s`: turns alternate between the
   * first and the second combatant, two turns per round.
   */
  function Exchange(s: State, j: nat): Entry
  {
    var round := s.round + j / 2;
    if j % 2 == 0 then Dealt(round, s.one.name, Damage(s.one.attack), s.two.name)
    else Dealt(round, s.two.name, Damage(s.two.attack), s.one.name)
  }

  /** A round that both survive: each is hit once and the log gains two exchanges. */
  lemma RoundBothSurvive(s: State)
    requires s.running && Round(s).running
    ensures Round(s) == State(s.one.Struck(Damage(s.two.attack)), s.two.Struck(Damage(s.one.attack)),
                              s.round + 1, s.log + [Exchange(s, 0), Exchange(s, 1)], true, s.winner)
  {
  }

  /** The last round: the first wins with one exchange, or the second with two. */
  lemma RoundFinal(s: State)
    requires s.running && !Round(s).running
    ensures var r := Round(s);
      && r.round == s.round + 1
      && r.two == s.two.Struck(Damage(s.one.attack))
      && (r.winner == Some(First) || r.winner == Some(Second))
      && (r.winner == Some(First) ==>
            r.one == s.one && r.log == s.log + [Exchange(s, 0), Defeated(s.one.name, s.two.name, s.round)])
      && (r.winner == Some(Second) ==>
            r.one == s.one.Struck(Damage(s.two.attack))
            && r.log == s.log + [Exchange(s, 0), Exchange(s, 1), Defeated(s.two.name, s.one.name, s.round)])
  {
  }

  /**
   * Exactly one winner: the loser has no health left, and the winner is still
   * alive (for the first combatant, provided it was alive when the battle began).
   * Names and attack stats never change.
   */
  lemma {:induction false} RunOneWinner(s: State)
    requires s.running && SomeAttackPositive(s)
    ensures var r := Run(s);
      && r.one.name == s.one.name && r.one.attack == s.one.attack
      && r.two.name == s.two.name && r.two.attack == s.two.attack
      && r.winner.Some?
      && (r.winner == Some(First) ==> !r.two.IsAlive() && (s.one.IsAlive() ==> r.one.IsAlive()))
      && (r.winner == Some(Second) ==> !r.one.IsAlive() && r.two.IsAlive())
    decreases Progress(s)
  {
    var t := Round(s);
    if t.running {
      RunOneWinner(t);
    }
  }

  /**
   * The body of the log: the old entries stay in front, followed by exchanges
   * that alternate between the first and the second combatant and are numbered
   * by their round; only the last new entry is not an exchange.
   */
  lemma {:induction false} RunLog(s: State)
    requires s.running && SomeAttackPositive(s)
    ensures |Run(s).log| >= |s.log| + 2
    ensures Run(s).log[..|s.log|] == s.log
    ensures var added := Run(s).log[|s.log|..];
      forall j :: 0 <= j < |added| - 1 ==> added[j] == Exchange(s, j)
    decreases Progress(s)
  {
    var t := Round(s);
    if !t.running {
      RoundFinal(s);
    } else {
      RoundBothSurvive(s);
      RunLog(t);
      var r := Run(t);
      var added := r.log[|s.log|..];
      var added' := r.log[|t.log|..];
      assert t.log == s.log + [Exchange(s, 0), Exchange(s, 1)];
      assert r.log == t.log + added';
      assert r.log == s.log + ([Exchange(s, 0), Exchange(s, 1)] + added');
      assert r.log[..|s.log|] == s.log;
      assert added == [Exchange(s, 0), Exchange(s, 1)] + added';
      forall j | 0 <= j < |added| - 1
        ensures added[j] == Exchange(s, j)
      {
        if j >= 2 {
          assert added[j] == added'[j - 2];
          ExchangeNextRound(s, t, j - 2);
        }
      }
    }
  }

  /** The exchanges of the next round are those of this round, two turns on. */
  lemma ExchangeNextRound(s: State, t: State, j: nat)
    requires t.round == s.round + 1
    requires t.one.name == s.one.name && t.one.attack == s.one.attack
    requires t.two.name == s.two.name && t.two.attack == s.two.attack
    ensures Exchange(t, j) == Exchange(s, j + 2)
  {
    assert (j + 2) / 2 == j / 2 + 1 && (j + 2) % 2 == j % 2;
  }

  /**
   * The end of the log: with `n` new entries, the round counter ends `n / 2`
   * rounds on, the first combatant wins iff `n` is even, and the last entry is
   * the winner's defeat of the loser in the final round.
   */
  lemma {:induction false} RunLogEnd(s: State)
    requires s.running && SomeAttackPositive(s)
    ensures |Run(s).log| >= |s.log| + 2
    ensures var r := Run(s); var n := |r.log| - |s.log|;
      && r.round == s.round + n / 2
      && r.winner == (if n % 2 == 0 then Some(First) else Some(Second))
      && r.log[|r.log| - 1]
         == (if n % 2 == 0 then Defeated(s.one.name, s.two.name, r.round - 1)
             else Defeated(s.two.name, s.one.name, r.round - 1))
    decreases Progress(s)
  {
    var t := Round(s);
    if !t.running {
      RoundFinal(s);
    } else {
      RoundBothSurvive(s);
      RunLogEnd(t);
      var r := Run(t);
      var n, n' := |r.log| - |s.log|, |r.log| - |t.log|;
      assert n == n' + 2 && n / 2 == n' / 2 + 1 && n % 2 == n' % 2;
    }
  }

  /**
   * The outcome as a caller reads it: a winner is recorded, the loser has no
   * health left, the old log is kept, and the last entry is the winner's
   * defeat of the loser in the final round.
   */
  lemma RunOutcome(s: State)
    requires s.running && SomeAttackPositive(s)
    ensures var r := Run(s);
      var (winner, loser) := if r.winner == Some(First) then (r.one, r.two) else (r.two, r.one);
      && r.winner.Some?
      && !loser.IsAlive()
      && |r.log| >= |s.log| + 2
      && r.log[..|s.log|] == s.log
      && r.log[|r.log| - 1] == Defeated(winner.name, loser.name, r.round - 1)
  {
    RunOneWinner(s);
    RunLog(s);
    RunLogEnd(s);
  }

  /** How many rounds a battle that began in round `start` and ended in `r` lasted. */
  function RoundsPlayed(start: int, r: State): int
  {
    r.round - start
  }

  /** How often the first combatant was hit in a battle that began in `start` and ended in `r`. */
  function HitsOnFirst(start: int, r: State): int
  {
    if r.winner == Some(First) then r.round - start - 1 else r.round - start
  }

  /** Multiplication distributes over one more round. */
  lemma OneMoreRound(rounds: int, damage: real)
    ensures (rounds - 1) as real * damage + damage == rounds as real * damage
  {
  }

  /** The second combatant's final health, with the hits multiplied out. */
  lemma {:induction false} RunHealthSecond(s: State)
    requires s.running && SomeAttackPositive(s)
    ensures Run(s).two.hp == s.two.hp - RoundsPlayed(s.round, Run(s)) as real * Damage(s.one.attack)
    decreases Progress(s)
  {
    var t := Round(s);
    RoundProgress(s);
    if !t.running {
      RoundFinal(s);
      OneMoreRound(1, Damage(s.one.attack));
    } else {
      RoundBothSurvive(s);
      RunHealthSecond(t);
      OneMoreRound(RoundsPlayed(s.round, Run(t)), Damage(s.one.attack));
    }
  }

  /** The first combatant's final health, with the hits multiplied out. */
  lemma {:induction false} RunHealthFirst(s: State)
    requires s.running && SomeAttackPositive(s)
    ensures Run(s).one.hp == s.one.hp - HitsOnFirst(s.round, Run(s)) as real * Damage(s.two.attack)
    decreases Progress(s)
  {
    var t := Round(s);
    RoundProgress(s);
    if !t.running {
      RoundFinal(s);
      OneMoreRound(1, Damage(s.two.attack));
    } else {
      RoundBothSurvive(s);
      RunHealthFirst(t);
      OneMoreRound(HitsOnFirst(s.round, Run(t)), Damage(s.two.attack));
    }
  }

  /** The second combatant survived every round but the last, so it took fewer hits than its health allows. */
  lemma {:induction false} RunRoundBoundSecond(s: State)
    requires s.running && SomeAttackPositive(s)
    ensures RoundsPlayed(s.round, Run(s)) >= 1
    ensures s.one.attack > 0 && s.two.IsAlive() ==>
      (RoundsPlayed(s.round, Run(s)) - 1) as real * Damage(s.one.attack) < s.two.hp
    decreases Progress(s)
  {
    var t := Round(s);
    RoundProgress(s);
    if t.running {
      RoundBothSurvive(s);
      RunRoundBoundSecond(t);
      var later := RoundsPlayed(t.round, Run(t));
      assert RoundsPlayed(s.round, Run(s)) - 1 == later;
      if s.one.attack > 0 && s.two.IsAlive() {
        // t.two has taken one hit less than s.two will have after `later` rounds
        assert (later - 1) as real * Damage(s.one.attack) < s.two.hp - Damage(s.one.attack);
        OneMoreRound(later, Damage(s.one.attack));
      }
    }
  }

  /** The first combatant survived every round but the last, so it took fewer hits than its health allows. */
  lemma {:induction false} RunRoundBoundFirst(s: State)
    requires s.running && SomeAttackPositive(s)
    ensures RoundsPlayed(s.round, Run(s)) >= 1
    ensures s.two.attack > 0 && s.one.IsAlive() ==>
      (RoundsPlayed(s.round, Run(s)) - 1) as real * Damage(s.two.attack) < s.one.hp
    decreases Progress(s)
  {
    var t := Round(s);
    RoundProgress(s);
    if t.running {
      RoundBothSurvive(s);
      RunRoundBoundFirst(t);
      var later := RoundsPlayed(t.round, Run(t));
      assert RoundsPlayed(s.round, Run(s)) - 1 == later;
      if s.two.attack > 0 && s.one.IsAlive() {
        assert (later - 1) as real * Damage(s.two.attack) < s.one.hp - Damage(s.two.attack);
        OneMoreRound(later, Damage(s.two.attack));
      }
    }
  }

  /**
   * A bound on the length of the battle: every round but the last was survived
   * by both, so a positive attack can have been dealt only fewer times than the
   * defender's starting health allows.
   */
  lemma RunRoundBound(s: State)
    requires s.running && SomeAttackPositive(s)
    ensures var rounds := RoundsPlayed(s.round, Run(s));
      && rounds >= 1
      && (s.one.attack > 0 && s.two.IsAlive() ==> (rounds - 1) as real * Damage(s.one.attack) < s.two.hp)
      && (s.two.attack > 0 && s.one.IsAlive() ==> (rounds - 1) as real * Damage(s.two.attack) < s.one.hp)
  {
    RunRoundBoundSecond(s);
    RunRoundBoundFirst(s);
  }

  /** `Run` is the loop iterated exactly as many times as it has rounds. */
  lemma {:induction false} RunIsRounds(s: State)
    requires s.running && SomeAttackPositive(s)
    ensures Run(s).round > s.round && Rounds(s, Run(s).round - s.round) == Run(s)
    decreases Progress(s)
  {
    var t := Round(s);
    if t.running {
      RunIsRounds(t);
    }
  }

  /**
   * Without a positive attack the loop never ends: after any number of rounds
   * both combatants are at least as healthy as they began.
   */
  lemma {:induction false} NoPositiveAttackNeverEnds(s: State, k: nat)
    requires s.running && s.one.IsAlive() && s.two.IsAlive()
    requires s.one.attack <= 0 && s.two.attack <= 0
    ensures var r := Rounds(s, k);
      r.running && r.round == s.round + k && r.one.hp >= s.one.hp && r.two.hp >= s.two.hp
    decreases k
  {
    if k > 0 {
      NoPositiveAttackNeverEnds(Round(s), k - 1);
    }
  }

  /** Between two live combatants, the battle ends iff some attack stat is positive. */
  lemma EndsIffSomeAttackPositive(s: State)
    requires s.running && s.one.IsAlive() && s.two.IsAlive()
    ensures (exists k: nat :: !Rounds(s, k).running) <==> SomeAttackPositive(s)
  {
    if SomeAttackPositive(s) {
      RunIsRounds(s);
      var k: nat := Run(s).round - s.round;
      assert !Rounds(s, k).running;
    } else {
      forall k: nat ensures Rounds(s, k).running {
        NoPositiveAttackNeverEnds(s, k);
      }
    }
  }
}
