/** Values shared by the back end and the dashboard: optional values, collaborator
    outcomes, the truthiness test both Python and JavaScript apply to optional strings,
    and the intelligence record that flows from extraction to the dashboard. */
module Intel {

  /** A value that may be absent: a missing dictionary key, or on the dashboard a missing,
      `undefined` or `null` field. JSON `null` reads as `None` wherever the code tests
      truthiness; where `.get(key, default)` supplies a default, a present `null` is not
      modelled. */
  datatype Option<+T> = None | Some(value: T) {
    /** The value, or `default` when absent (Python's `dict.get(key, default)`). */
    function GetOr(default: T): T {
      match this
      case Some(v) => v
      case None => default
    }
  }

  /** The outcome of a call to an external collaborator: a parsed reply, or the text of
      the exception it raised. */
  datatype Result<+T> = Success(value: T) | Failure(error: string)

  /** Truthiness of an optional string in Python and JavaScript alike: present and non-empty. */
  predicate Truthy(s: Option<string>) {
    s.Some? && s.value != ""
  }

  /** The extracted intelligence: a payment identifier, bank details and phishing links. */
  datatype IntelRecord = IntelRecord(
    upiId: Option<string>,
    bankDetails: Option<string>,
    phishingLinks: seq<string>)

  /** The record every workflow state starts from, and the one a failed extraction yields. */
  const EmptyIntel: IntelRecord := IntelRecord(None, None, [])

  /** The first `n` characters of `s`, or all of it when it is shorter: Python's `s[:n]`.
      It agrees with JavaScript's `s.substring(0, n)` on text within the Basic
      Multilingual Plane, where characters and UTF-16 code units coincide. */
  function Prefix(s: string, n: nat): (p: string)
    ensures p <= s && |p| == if |s| < n then |s| else n
  {
    if |s| <= n then s else s[..n]
  }
}
