/**
 * The two state mappers of the Oracle user module: the desired lifecycle
 * becomes a LOCK/UNLOCK keyword, and the observed account status becomes
 * the lifecycles it already satisfies.  The latter returns a list for OPEN
 * and a plain string otherwise, so the caller's `in` test is list
 * membership in one case and substring containment in the other; both are
 * modelled as written.
 */
module OracleState {
  import opened Wrappers

  /** The desired lifecycle of an account (the `state` option). */
  datatype Lifecycle = Present | Absent | Locked | Unlocked

  /** The option value that selects a lifecycle. */
  function StateName(state: Lifecycle): string {
    match state
    case Present => "present"
    case Absent => "absent"
    case Locked => "locked"
    case Unlocked => "unlocked"
  }

  /** `mapState`: `present` and `unlocked` unlock the account, every other state locks it. */
  function MapState(state: Lifecycle): (lock: string)
    ensures lock == "UNLOCK" <==> state == Present || state == Unlocked
    ensures lock == "LOCK" <==> state == Absent || state == Locked
  {
    if StateName(state) in ["present", "unlocked"] then "UNLOCK" else "LOCK"
  }

  /** What `mapAccountStatus` returns: a list of state names, or a single string. */
  datatype Satisfied = Listed(names: seq<string>) | Text(text: string)

  /** `mapAccountStatus`: an OPEN account satisfies `present` and `unlocked`, any other status `locked`. */
  function MapAccountStatus(status: Option<string>): Satisfied {
    if status == Some("OPEN") then Listed(["present", "unlocked"]) else Text("locked")
  }

  /** Python's `needle in hay` on two strings. */
  predicate IsSubstring(needle: string, hay: string)
    decreases |hay|
  {
    if |needle| > |hay| then false
    else hay[..|needle|] == needle || (hay != [] && IsSubstring(needle, hay[1..]))
  }

  /** `needle` occurs in `hay` at position `i`. */
  predicate OccursAt(needle: string, hay: string, i: int) {
    0 <= i && i + |needle| <= |hay| && hay[i..i + |needle|] == needle
  }

  /** The scanning definition of `in` agrees with "occurs at some position". */
  lemma {:induction false} IsSubstringOccurs(needle: string, hay: string)
    ensures IsSubstring(needle, hay) <==> exists i :: OccursAt(needle, hay, i)
    decreases |hay|
  {
    if |needle| > |hay| {
    } else if hay[..|needle|] == needle {
      assert OccursAt(needle, hay, 0);
    } else if hay != [] {
      var tail := hay[1..];
      IsSubstringOccurs(needle, tail);
      if IsSubstring(needle, tail) {
        var j :| OccursAt(needle, tail, j);
        assert hay[j + 1..j + 1 + |needle|] == tail[j..j + |needle|];
        assert OccursAt(needle, hay, j + 1);
      }
      if exists i :: OccursAt(needle, hay, i) {
        var i :| OccursAt(needle, hay, i);
        assert i != 0;
        assert tail[i - 1..i - 1 + |needle|] == hay[i..i + |needle|];
        assert OccursAt(needle, tail, i - 1);
      }
    }
  }

  /** Python's `s in v`, with `v` a list or a string. */
  predicate Contains(v: Satisfied, s: string) {
    match v
    case Listed(names) => s in names
    case Text(text) => IsSubstring(s, text)
  }

  /**
   * Through the `in` test, an OPEN status satisfies exactly `present` and
   * `unlocked`, and every other status exactly `locked`.
   */
  lemma AccountStatusSatisfies(status: Option<string>, state: Lifecycle)
    ensures Contains(MapAccountStatus(status), StateName(state))
        <==> if status == Some("OPEN") then state == Present || state == Unlocked else state == Locked
  {
    if status != Some("OPEN") {
      var hay := "locked";
      match state
      case Present =>
      case Unlocked =>
      case Locked =>
        assert hay[..6] == "locked";
      case Absent =>
        assert hay[..6] != "absent" by { assert hay[0] != "absent"[0]; }
        assert !IsSubstring("absent", hay[1..]);
    }
  }

  /**
   * For a state other than `absent`, the lock-state ALTER is chosen exactly
   * when the status is OPEN and the state is `locked`, or the status is not
   * OPEN and the state is not `locked`.
   */
  lemma LockBranchTaken(status: Option<string>, state: Lifecycle)
    requires state != Absent
    ensures !Contains(MapAccountStatus(status), StateName(state))
        <==> ((status == Some("OPEN")) == (state == Locked))
  {
  }
}
