/**
 * The `user_stats` table shared by the group, follow and post repositories: one row per
 * user, one integer column per counter (`groups_joined`, `followers_count`, ...). A column
 * of a row that was created for another counter reads as its default, 0.
 */
module UserStats {

  /** user id -> (column -> value) */
  type Table = map<string, map<string, int>>

  /** The value of `column` for `user`: 0 when the row or the column is missing. */
  function Get(t: Table, user: string, column: string): int
  {
    if user in t && column in t[user] then t[user][column] else 0
  }

  /** All stored counters are non-negative. */
  predicate NonNegative(t: Table)
  {
    forall user, column :: user in t && column in t[user] ==> t[user][column] >= 0
  }

  /**
   * One counter step: an existing row is incremented, or decremented but never below 0;
   * a missing row is created holding 1 on increment and 0 on decrement.
   */
  function Bump(t: Table, user: string, column: string, increment: bool): (r: Table)
    ensures user in r && r.Keys == t.Keys + {user}
  {
    if user in t then
      var v := Get(t, user, column);
      t[user := t[user][column := if increment then v + 1 else if v > 0 then v - 1 else 0]]
    else
      t[user := map[column := if increment then 1 else 0]]
  }

  /** A step adds one, or subtracts one clamped at 0, whether or not the row existed; nothing else moves. */
  lemma BumpStep(t: Table, user: string, column: string, increment: bool)
    requires NonNegative(t)
    ensures Get(Bump(t, user, column, increment), user, column)
      == if increment then Get(t, user, column) + 1
         else if Get(t, user, column) > 0 then Get(t, user, column) - 1 else 0
    ensures NonNegative(Bump(t, user, column, increment))
    ensures forall u, c :: (u, c) != (user, column) ==>
      Get(Bump(t, user, column, increment), u, c) == Get(t, u, c)
  {
  }

  /** Incrementing then decrementing the same counter restores its value. */
  lemma BumpUndo(t: Table, user: string, column: string)
    requires NonNegative(t)
    ensures Get(Bump(Bump(t, user, column, true), user, column, false), user, column) == Get(t, user, column)
  {
    BumpStep(t, user, column, true);
    BumpStep(Bump(t, user, column, true), user, column, false);
  }
}
