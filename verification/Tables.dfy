// Lookups in a table, whose rows are kept in the order they were inserted, and the statements that loop over one.
module Tables {
  import opened Wrappers

  /** The earliest row that satisfies the condition. */
  function FindFirst<T>(rows: seq<T>, holds: T -> bool): (found: Option<nat>)
    ensures found.Some? ==> found.value < |rows| && holds(rows[found.value])
    ensures forall i | 0 <= i < |rows| && holds(rows[i]) :: found.Some? && found.value <= i
  {
    if rows == [] then None
    else if holds(rows[0]) then Some(0)
    else
      assert forall i | 1 <= i < |rows| :: rows[i] == rows[1..][i - 1];
      match FindFirst(rows[1..], holds)
      case None => None
      case Some(i) => Some(i + 1)
  }

  /** The latest row that satisfies the condition. */
  function FindLast<T>(rows: seq<T>, holds: T -> bool): (found: Option<nat>)
    ensures found.Some? ==> found.value < |rows| && holds(rows[found.value])
    ensures forall i | 0 <= i < |rows| && holds(rows[i]) :: found.Some? && i <= found.value
  {
    if rows == [] then None
    else
      var last := |rows| - 1;
      if holds(rows[last]) then Some(last) else FindLast(rows[..last], holds)
  }

  /** SELECT ... ORDER BY created_at LIMIT 1, or EXISTS: read on until a row satisfies the condition. */
  method SelectFirst<T>(rows: seq<T>, holds: T -> bool) returns (found: Option<nat>)
    ensures found == FindFirst(rows, holds)
  {
    for i := 0 to |rows|
      invariant forall k | 0 <= k < i :: !holds(rows[k])
    {
      if holds(rows[i]) {
        return Some(i);
      }
    }
    found := None;
  }

  /** SELECT ... ORDER BY created_at DESC LIMIT 1: read all rows, keeping the latest that satisfies the condition. */
  method SelectLast<T>(rows: seq<T>, holds: T -> bool) returns (found: Option<nat>)
    ensures found == FindLast(rows, holds)
  {
    found := None;
    for i := 0 to |rows|
      invariant found.Some? ==> found.value < i && holds(rows[found.value])
      invariant forall k | 0 <= k < i && holds(rows[k]) :: found.Some? && k <= found.value
    {
      if holds(rows[i]) {
        found := Some(i);
      }
    }
  }

  /** UPDATE ... SET ... WHERE: change the selected rows one by one. */
  method UpdateWhere<T>(rows: seq<T>, selects: (nat, T) -> bool, change: T -> T) returns (updated: seq<T>)
    ensures |updated| == |rows|
    ensures forall i: nat | i < |rows| :: updated[i] == if selects(i, rows[i]) then change(rows[i]) else rows[i]
  {
    updated := rows;
    for i := 0 to |rows|
      invariant |updated| == |rows|
      invariant forall k: nat | k < i :: updated[k] == if selects(k, rows[k]) then change(rows[k]) else rows[k]
      invariant forall k | i <= k < |rows| :: updated[k] == rows[k]
    {
      if selects(i, updated[i]) {
        updated := updated[i := change(updated[i])];
      }
    }
  }
}
