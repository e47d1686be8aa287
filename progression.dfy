/** The progression engine: a state machine over (level, xp). Completing a
    habit credits XP_PER_HABIT experience, un-completing it debits the same
    amount; crossing the current level's threshold raises the level by one. */
module Progression {

  /** Experience a level N needs is N * XP_PER_LEVEL. */
  const XP_PER_LEVEL: int := 100
  /** Experience credited or debited per completion toggle. */
  const XP_PER_HABIT: int := 10
  /** Titles shown for levels 1 to 8; every later level shows the last. */
  const LEVEL_TITLES: seq<string> :=
    ["Pemula", "Murid", "Petualang", "Pejuang", "Ahli", "Master", "Grandmaster", "Legenda"]

  /** The persisted user record `{xp, level}`. */
  datatype Progress = Progress(level: int, xp: int)

  /** The state at rest: level 1 or more and experience below the current
      level's threshold. */
  predicate InBounds(p: Progress)
  {
    1 <= p.level && 0 <= p.xp < p.level * XP_PER_LEVEL
  }

  /** Experience spent to climb from level 1 to `level`: level N costs
      N * XP_PER_LEVEL to leave. */
  function LevelCost(level: int): (c: int)
    ensures level <= 2 ==> c == Max(0, level - 1) * XP_PER_LEVEL
    ensures level >= 2 ==> c >= (level - 1) * XP_PER_LEVEL
  {
    if level <= 1 then 0 else LevelCost(level - 1) + (level - 1) * XP_PER_LEVEL
  }

  /** All experience earned so far: the cost of the levels climbed plus the
      experience held in the current level. */
  function AccumulatedXP(p: Progress): (t: int)
    ensures InBounds(p) ==> LevelCost(p.level) <= t < LevelCost(p.level + 1)
  {
    LevelCost(p.level) + p.xp
  }

  /** The total shown on screen, `(level - 1) * 100 + xp`. */
  function TotalXP(p: Progress): (t: int)
    ensures p.level >= 1 ==> (t == AccumulatedXP(p) <==> p.level <= 2)
  {
    if p.level >= 3 then
      LevelCostAboveFlat(p.level);
      (p.level - 1) * XP_PER_LEVEL + p.xp
    else
      (p.level - 1) * XP_PER_LEVEL + p.xp
  }

  /** From level 3 on, the levels climbed cost more than a flat
      XP_PER_LEVEL each. */
  lemma {:induction false} LevelCostAboveFlat(level: int)
    requires level >= 3
    ensures LevelCost(level) > (level - 1) * XP_PER_LEVEL
  {
    if level > 3 {
      LevelCostAboveFlat(level - 1);
    }
  }

  /** The shown total falls on a level-up above level 1: it loses the part of
      the old threshold beyond XP_PER_LEVEL. */
  lemma TotalXPOnLevelUp(p: Progress, amount: int)
    requires p.xp + amount >= p.level * XP_PER_LEVEL
    ensures TotalXP(Credit(p, amount)) == TotalXP(p) + amount - (p.level - 1) * XP_PER_LEVEL
  {
  }

  /** Concrete case: at level 2 with 190 xp the shown total is 290; one
      completion moves to level 3 with 0 xp and the shown total drops to 200,
      while the experience earned grows from 290 to 300. */
  lemma TotalXPDropExample()
    ensures TotalXP(Progress(2, 190)) == 290
    ensures Credit(Progress(2, 190), XP_PER_HABIT) == Progress(3, 0)
    ensures TotalXP(Progress(3, 0)) == 200
    ensures AccumulatedXP(Progress(2, 190)) == 290 && AccumulatedXP(Progress(3, 0)) == 300
  {
  }

  /** `addXP`: add `amount`, then at most one level-up step. */
  function Credit(p: Progress, amount: int): (r: Progress)
    ensures r.level == if p.xp + amount >= p.level * XP_PER_LEVEL then p.level + 1 else p.level
    ensures p.level >= 1 ==> AccumulatedXP(r) == AccumulatedXP(p) + amount
  {
    var xp := p.xp + amount;
    var nextLevelXP := p.level * XP_PER_LEVEL;
    if xp >= nextLevelXP then Progress(p.level + 1, xp - nextLevelXP)
    else Progress(p.level, xp)
  }

  /** `removeXP`: subtract `amount`, flooring the experience at 0 and
      never lowering the level. */
  function Debit(p: Progress, amount: int): (r: Progress)
    ensures r.level == p.level
    ensures r.xp == Max(0, p.xp - amount)
  {
    if p.xp >= amount then Progress(p.level, p.xp - amount)
    else Progress(p.level, 0)
  }

  function Max(a: int, b: int): int
  {
    if a >= b then a else b
  }

  /** Crediting up to one level's worth keeps the state at rest. */
  lemma CreditKeepsBounds(p: Progress, amount: int)
    requires InBounds(p) && 0 <= amount <= XP_PER_LEVEL
    ensures InBounds(Credit(p, amount))
  {
  }

  /** Debiting a non-negative amount keeps the state at rest. */
  lemma DebitKeepsBounds(p: Progress, amount: int)
    requires InBounds(p) && 0 <= amount
    ensures InBounds(Debit(p, amount))
  {
  }

  /** A debit never undoes a level-up: after a credit and any debit the level
      is the one the credit reached. */
  lemma DebitKeepsLevelUp(p: Progress, credit: int, debit: int)
    ensures Debit(Credit(p, credit), debit).level == Credit(p, credit).level >= p.level
  {
  }

  /** Completing and then un-completing a habit restores the progress exactly
      when the completion did not cross a level threshold. */
  lemma CompleteThenUndo(p: Progress)
    requires InBounds(p)
    ensures Debit(Credit(p, XP_PER_HABIT), XP_PER_HABIT) == p <==>
            p.xp + XP_PER_HABIT < p.level * XP_PER_LEVEL
  {
  }

  /** A single credit performs one level-up step only: a credit worth more
      than a level can leave the experience at or above the new threshold. */
  lemma SingleStepLevelUp()
    ensures Credit(Progress(1, 0), 300) == Progress(2, 200)
    ensures !InBounds(Credit(Progress(1, 0), 300))
  {
  }

  /** Worked example: 95 xp at level 1, complete, then un-complete. */
  lemma LevelUpThenDebitExample()
    ensures Credit(Progress(1, 95), XP_PER_HABIT) == Progress(2, 5)
    ensures Debit(Progress(2, 5), XP_PER_HABIT) == Progress(2, 0)
  {
  }

  /** Index of the level's title: `min(level - 1, LEVEL_TITLES.length - 1)`. */
  function TitleIndex(level: int): (i: int)
    requires level >= 1
    ensures 0 <= i < |LEVEL_TITLES|
    ensures level <= |LEVEL_TITLES| ==> i == level - 1
    ensures level >= |LEVEL_TITLES| ==> i == |LEVEL_TITLES| - 1
  {
    if level - 1 < |LEVEL_TITLES| - 1 then level - 1 else |LEVEL_TITLES| - 1
  }

  /** The title shown for a level. */
  function Title(level: int): (t: string)
    requires level >= 1
    ensures t in LEVEL_TITLES
  {
    LEVEL_TITLES[TitleIndex(level)]
  }

  /** Titles never go back as the level rises. */
  lemma TitleIndexMonotone(a: int, b: int)
    requires 1 <= a <= b
    ensures TitleIndex(a) <= TitleIndex(b)
  {
  }
}
