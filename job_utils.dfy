/**
 * The frontend's job-status decoder (frontend/src/utils/jobUtils.js):
 * a contract status code becomes a display name, or 'Unknown'.
 */
module JobUtils {
  import opened Wrappers

  /** The display names, indexed by status code. */
  const Statuses: seq<string> :=
    ["Open", "In Progress", "Submitted", "Approved", "Disputed", "Closed", "Cancelled"]

  /** Every string the decoder can return. */
  const Names: set<string> :=
    {"Open", "In Progress", "Submitted", "Approved", "Disputed", "Closed", "Cancelled", "Unknown"}

  /** `statuses[code]`: an index outside the array yields `undefined` (None). */
  function Lookup(code: int): Option<string>
  {
    if 0 <= code < |Statuses| then Some(Statuses[code]) else None
  }

  /** JavaScript truthiness of a looked-up name: `undefined` and `''` are falsy. */
  predicate Truthy(v: Option<string>)
  {
    v.Some? && v.value != ""
  }

  /** `statuses[code] || 'Unknown'`. */
  function GetStatus(code: int): (r: string)
    ensures r in Names
    ensures r == "Unknown" <==> !(0 <= code < |Statuses|)
    ensures 0 <= code < |Statuses| ==> r == Statuses[code]
  {
    var v := Lookup(code);
    if Truthy(v) then v.value else "Unknown"
  }

  /** The seven codes decode, in order, to the seven names. */
  lemma GetStatusTable()
    ensures GetStatus(0) == "Open"
    ensures GetStatus(1) == "In Progress"
    ensures GetStatus(2) == "Submitted"
    ensures GetStatus(3) == "Approved"
    ensures GetStatus(4) == "Disputed"
    ensures GetStatus(5) == "Closed"
    ensures GetStatus(6) == "Cancelled"
  {
  }

  /** No two valid codes share a name. */
  lemma GetStatusInjective(a: int, b: int)
    requires 0 <= a < |Statuses| && 0 <= b < |Statuses|
    requires a != b
    ensures GetStatus(a) != GetStatus(b)
  {
  }
}
