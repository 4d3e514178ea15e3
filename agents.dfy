/** The three agents of the honeypot back end (agents.py). Each agent wraps one call to a
    language-model collaborator; the call itself is a function-typed parameter, and what
    is modelled is the code around it: the regular-expression fast path of extraction and
    how it is combined with the collaborator's reply, and the defaults and fallbacks the
    agents apply when a reply lacks a field or the call fails. */
module Agents {
  import opened Intel

  // ---------------------------------------------------------------------------
  // The UPI pattern  [a-zA-Z0-9.\-_]{2,256}@[a-zA-Z]{2,64}
  // ---------------------------------------------------------------------------

  /** The two character classes of the pattern: before and after the `@`. */
  datatype CharClass = LocalPart | Handle

  predicate InClass(c: char, cls: CharClass) {
    match cls
    case LocalPart =>
      ('a' <= c <= 'z') || ('A' <= c <= 'Z') || ('0' <= c <= '9') || c == '.' || c == '-' || c == '_'
    case Handle =>
      ('a' <= c <= 'z') || ('A' <= c <= 'Z')
  }

  /** Every character of `s[lo..hi]` is in `cls`. */
  predicate ClassBetween(s: string, lo: nat, hi: nat, cls: CharClass)
    requires lo <= hi <= |s|
  {
    forall j :: lo <= j < hi ==> InClass(s[j], cls)
  }

  /** `t` is one match of the pattern with its `@` at position `k`: 2 to 256 local-part
      characters, the `@`, then 2 to 64 ASCII letters. */
  predicate IsTokenAt(t: string, k: nat) {
    && 2 <= k <= 256 && k < |t| && t[k] == '@' && 2 <= |t| - k - 1 <= 64
    && ClassBetween(t, 0, k, LocalPart)
    && ClassBetween(t, k + 1, |t|, Handle)
  }

  /** `t` is exactly one match of the pattern: such a token holds an `@` and is 5 to 321
      characters long. */
  ghost predicate IsUpiToken(t: string)
    ensures IsUpiToken(t) ==> 5 <= |t| <= 321 && '@' in t
  {
    exists k: nat :: IsTokenAt(t, k)
  }

  /** How many characters of `cls` follow position `i`, as a greedy `{m,cap}` repetition
      consumes them: the whole run, but at most `cap`. */
  function Run(s: string, i: nat, cap: nat, cls: CharClass): (n: nat)
    requires i <= |s|
    ensures n <= cap && i + n <= |s|
    ensures n < cap && i + n < |s| ==> !InClass(s[i + n], cls)
    decreases |s| - i
  {
    if cap == 0 || i == |s| || !InClass(s[i], cls) then 0
    else 1 + Run(s, i + 1, cap - 1, cls)
  }

  /** Every character a run consumes is in its class. */
  lemma {:induction false} RunInClass(s: string, i: nat, cap: nat, cls: CharClass)
    requires i <= |s|
    ensures ClassBetween(s, i, i + Run(s, i, cap, cls), cls)
    decreases |s| - i
  {
    if !(cap == 0 || i == |s| || !InClass(s[i], cls)) {
      RunInClass(s, i + 1, cap - 1, cls);
    }
  }

  /** A run is at least as long as any stretch of `cls` characters it may consume. */
  lemma RunCovers(s: string, i: nat, cap: nat, cls: CharClass, m: nat)
    requires i + m <= |s| && m <= cap
    requires ClassBetween(s, i, i + m, cls)
    ensures Run(s, i, cap, cls) >= m
  {
  }

  /** A local-part run, an `@` and a handle run make a token. */
  lemma TokenOfRuns(s: string, i: nat, l: nat, d: nat)
    requires 2 <= l <= 256 && 2 <= d <= 64 && i + l + 1 + d <= |s|
    requires ClassBetween(s, i, i + l, LocalPart)
    requires s[i + l] == '@'
    requires ClassBetween(s, i + l + 1, i + l + 1 + d, Handle)
    ensures IsUpiToken(s[i..i + l + 1 + d])
  {
    var t := s[i..i + l + 1 + d];
    forall j | 0 <= j < |t| ensures t[j] == s[i + j] { }
    assert IsTokenAt(t, l);
  }

  /** Where the match of the pattern that starts at `i` ends, if one does. The local part
      is greedy and `@` is not one of its characters, so the only candidate is the full
      run (capped at 256) followed by `@`; the handle then takes up to 64 letters. */
  function MatchEnd(s: string, i: nat): (e: Option<nat>)
    requires i <= |s|
    ensures e.Some? ==> i < e.value <= |s|
  {
    var l := Run(s, i, 256, LocalPart);
    if 2 <= l && i + l < |s| && s[i + l] == '@' then
      var d := Run(s, i + l + 1, 64, Handle);
      if 2 <= d then Some(i + l + 1 + d) else None
    else None
  }

  /** What `MatchEnd` reports is a local-part run of length `l`, an `@` and a handle
      run, within the bounds of the pattern. */
  lemma MatchEndShape(s: string, i: nat, e: nat) returns (l: nat)
    requires i <= |s| && MatchEnd(s, i) == Some(e)
    ensures 2 <= l <= 256 && 2 <= e - i - l - 1 <= 64 && e <= |s|
    ensures ClassBetween(s, i, i + l, LocalPart) && s[i + l] == '@'
    ensures ClassBetween(s, i + l + 1, e, Handle)
  {
    l := Run(s, i, 256, LocalPart);
    assert ClassBetween(s, i, i + l, LocalPart) by {
      RunInClass(s, i, 256, LocalPart);
    }
    assert ClassBetween(s, i + l + 1, e, Handle) by {
      RunInClass(s, i + l + 1, 64, Handle);
    }
  }

  /** Whatever `MatchEnd` reports is a token. */
  lemma MatchEndSound(s: string, i: nat, e: nat)
    requires i <= |s| && MatchEnd(s, i) == Some(e)
    ensures i < e <= |s| && IsUpiToken(s[i..e])
  {
    var l := MatchEndShape(s, i, e);
    TokenOfRuns(s, i, l, e - i - l - 1);
  }

  /** Where the two runs have the lengths of a token, `MatchEnd` reports its end. */
  lemma MatchEndOfRuns(s: string, i: nat, l: nat, d: nat)
    requires i <= |s| && Run(s, i, 256, LocalPart) == l
    requires 2 <= l && i + l < |s| && s[i + l] == '@'
    requires Run(s, i + l + 1, 64, Handle) == d && 2 <= d
    ensures MatchEnd(s, i) == Some(i + l + 1 + d)
  {
  }

  /** `MatchEnd` is what the regular expression matches at `i`: the longest token that
      starts there, and nothing when no token starts there. */
  lemma MatchEndIsLongestToken(s: string, i: nat, j: nat)
    requires i < j <= |s|
    requires IsUpiToken(s[i..j])
    ensures MatchEnd(s, i).Some? && j <= MatchEnd(s, i).value
  {
    var k: nat :| IsTokenAt(s[i..j], k);
    TokenInText(s, i, j, k);
    RunExact(s, i, 256, LocalPart, k);
    RunCovers(s, i + k + 1, 64, Handle, j - i - k - 1);
    MatchEndOfRuns(s, i, k, Run(s, i + k + 1, 64, Handle));
  }

  /** A token found at `s[i..j]` with its `@` at `k`, restated on `s` itself. */
  lemma TokenInText(s: string, i: nat, j: nat, k: nat)
    requires i < j <= |s|
    requires IsTokenAt(s[i..j], k)
    ensures i + k < j && s[i + k] == '@' && 2 <= k <= 256 && 2 <= j - i - k - 1 <= 64
    ensures ClassBetween(s, i, i + k, LocalPart)
    ensures ClassBetween(s, i + k + 1, j, Handle)
  {
    var t := s[i..j];
    forall p | i <= p < i + k ensures InClass(s[p], LocalPart) {
      assert s[p] == t[p - i];
    }
    forall p | i + k + 1 <= p < j ensures InClass(s[p], Handle) {
      assert s[p] == t[p - i];
    }
    assert s[i + k] == t[k];
  }

  /** A run is exactly a stretch of `cls` characters that the cap or the text or a
      character outside the class ends. */
  lemma RunExact(s: string, i: nat, cap: nat, cls: CharClass, m: nat)
    requires i + m <= |s| && m <= cap
    requires ClassBetween(s, i, i + m, cls)
    requires m == cap || i + m == |s| || !InClass(s[i + m], cls)
    ensures Run(s, i, cap, cls) == m
  {
    RunCovers(s, i, cap, cls, m);
    RunInClass(s, i, cap, cls);
  }

  /** `re.findall` of the UPI pattern over `s[i..]`: scan left to right, take the match at
      the current position and resume after it, or move on one character. */
  function FindUpisFrom(s: string, i: nat): (r: seq<string>)
    requires i <= |s|
    decreases |s| - i, 1
  {
    if i == |s| then [] else ScanAt(s, i)
  }

  /** The scan at a position inside the text: the match there and the scan after it, or
      the scan from the next character. */
  function ScanAt(s: string, i: nat): (r: seq<string>)
    requires i < |s|
    decreases |s| - i, 0
  {
    match MatchEnd(s, i)
    case Some(e) => [s[i..e]] + FindUpisFrom(s, e)
    case None => FindUpisFrom(s, i + 1)
  }

  /** All matches of the UPI pattern in a message, in order (`re.findall`). Every match
      is 2 to 256 characters of `[A-Za-z0-9._-]`, one `@`, and 2 to 64 ASCII letters, and
      there is none exactly when no part of the message has that shape. */
  function FindUpis(message: string): (r: seq<string>)
    ensures forall t :: t in r ==> IsUpiToken(t)
    ensures r == [] <==> !HasTokenFrom(message, 0)
  {
    FindUpisFromSound(message, 0);
    FindUpisFromEmptyIff(message, 0);
    FindUpisFrom(message, 0)
  }

  /** Every match the scan reports is a token. */
  lemma {:induction false} FindUpisFromSound(s: string, i: nat)
    requires i <= |s|
    ensures forall t :: t in FindUpisFrom(s, i) ==> IsUpiToken(t)
    decreases |s| - i
  {
    if i < |s| {
      match MatchEnd(s, i)
      case Some(e) =>
        MatchEndSound(s, i, e);
        FindUpisFromSound(s, e);
      case None => FindUpisFromSound(s, i + 1);
    }
  }

  /** Some substring of `s[i..]` is a token. */
  ghost predicate HasTokenFrom(s: string, i: nat)
    requires i <= |s|
  {
    exists a, b :: i <= a < b <= |s| && IsUpiToken(s[a..b])
  }

  /** The scan finds something exactly when the text holds a UPI-shaped substring. */
  lemma {:induction false} FindUpisFromEmptyIff(s: string, i: nat)
    requires i <= |s|
    ensures FindUpisFrom(s, i) == [] <==> !HasTokenFrom(s, i)
    decreases |s| - i
  {
    if i < |s| {
      match MatchEnd(s, i)
      case Some(e) =>
        MatchEndSound(s, i, e);
      case None =>
        FindUpisFromEmptyIff(s, i + 1);
        if HasTokenFrom(s, i) {
          var a, b :| i <= a < b <= |s| && IsUpiToken(s[a..b]);
          if a == i {
            MatchEndIsLongestToken(s, i, b);
          }
          assert HasTokenFrom(s, i + 1);
        }
    }
  }

  /** A position where the matcher finds nothing starts no token. */
  lemma NoTokenAt(s: string, i: nat)
    requires i <= |s| && MatchEnd(s, i).None?
    ensures forall b :: i < b <= |s| ==> !IsUpiToken(s[i..b])
  {
    forall b | i < b <= |s| ensures !IsUpiToken(s[i..b]) {
      if IsUpiToken(s[i..b]) {
        MatchEndIsLongestToken(s, i, b);
      }
    }
  }

  /** Where the first match of the scan from `i` starts and ends. */
  lemma {:induction false} LeftmostMatch(s: string, i: nat) returns (a: nat, e: nat)
    requires i <= |s| && FindUpisFrom(s, i) != []
    ensures i <= a < e <= |s| && MatchEnd(s, a) == Some(e)
    ensures FindUpisFrom(s, i)[0] == s[a..e]
    ensures forall a', b' :: i <= a' < a && a' < b' <= |s| ==> !IsUpiToken(s[a'..b'])
    decreases |s| - i
  {
    assert i < |s|;
    match MatchEnd(s, i)
    case Some(end) =>
      a, e := i, end;
      ScanAtMatch(s, i, e);
    case None =>
      ScanNoMatch(s, i);
      a, e := LeftmostMatch(s, i + 1);
      NoTokenAt(s, i);
  }

  /** The first match the scan reports is the leftmost token of `s[i..]`: it is what the
      matcher finds at some position `a`, and no token starts before `a`. This is the
      match `extract_intelligence` takes as its UPI id. */
  lemma FirstMatchIsLeftmost(s: string, i: nat)
    requires i <= |s| && FindUpisFrom(s, i) != []
    ensures exists a: nat, e: nat ::
      && i <= a < e <= |s| && MatchEnd(s, a) == Some(e)
      && FindUpisFrom(s, i)[0] == s[a..e]
      && (forall a', b' :: i <= a' < a && a' < b' <= |s| ==> !IsUpiToken(s[a'..b']))
  {
    var a, e := LeftmostMatch(s, i);
  }

  /** A position before `q` starts no match when no `@` occurs from it up to `q` and the
      character at `q`, if any, can neither extend a local part nor be its `@`. */
  lemma NoMatchBeforeStop(s: string, p: nat, q: nat)
    requires p < q <= |s|
    requires forall k :: p <= k < q ==> s[k] != '@'
    requires q == |s| || (!InClass(s[q], LocalPart) && s[q] != '@')
    ensures MatchEnd(s, p).None?
  {
    var l := Run(s, p, 256, LocalPart);
    RunInClass(s, p, 256, LocalPart);
    assert p + l <= q;
  }

  /** One step of the scan where no match starts: move on one character. */
  lemma ScanNoMatch(s: string, i: nat)
    requires i < |s| && MatchEnd(s, i).None?
    ensures FindUpisFrom(s, i) == FindUpisFrom(s, i + 1)
  {
  }

  /** Positions before `q` where no `@` occurs and that cannot be extended past `q`
      start no match, so the scan skips them. */
  lemma {:induction false} SkipWithoutAt(s: string, p: nat, q: nat)
    requires p <= q <= |s|
    requires forall k :: p <= k < q ==> s[k] != '@'
    requires q == |s| || (!InClass(s[q], LocalPart) && s[q] != '@')
    ensures FindUpisFrom(s, p) == FindUpisFrom(s, q)
    decreases q - p
  {
    if p < q {
      NoMatchBeforeStop(s, p, q);
      ScanNoMatch(s, p);
      SkipWithoutAt(s, p + 1, q);
    }
  }

  /** One step of the scan where a match starts: take it and resume after it. */
  lemma ScanAtMatch(s: string, i: nat, e: nat)
    requires i <= |s| && MatchEnd(s, i) == Some(e)
    ensures FindUpisFrom(s, i) == [s[i..e]] + FindUpisFrom(s, e)
  {
  }

  /** A position holding a character outside the local-part class starts no match. */
  lemma ScanPastNonLocal(s: string, i: nat)
    requires i < |s| && !InClass(s[i], LocalPart)
    ensures FindUpisFrom(s, i) == FindUpisFrom(s, i + 1)
  {
    assert Run(s, i, 256, LocalPart) == 0;
  }

  /** A local-part run of length `l` ending at an `@`, then a handle run of length `h`
      that cannot be extended, is the match `MatchEnd` reports at `p`. */
  lemma MatchEndOfToken(s: string, p: nat, l: nat, h: nat)
    requires p + l + 1 + h <= |s|
    requires 2 <= l <= 256 && ClassBetween(s, p, p + l, LocalPart) && s[p + l] == '@'
    requires 2 <= h <= 64 && ClassBetween(s, p + l + 1, p + l + 1 + h, Handle)
    requires p + l + 1 + h == |s| || !InClass(s[p + l + 1 + h], Handle)
    ensures MatchEnd(s, p) == Some(p + l + 1 + h)
  {
    RunExact(s, p, 256, LocalPart, l);
    RunExact(s, p + l + 1, 64, Handle, h);
    MatchEndOfRuns(s, p, l, h);
  }

  /** A text whose only `@` belongs to the match `MatchEnd` reports at `p`, with no
      local-part character just before `p`, holds exactly that match. */
  lemma SingleMatchAt(s: string, p: nat, e: nat)
    requires p <= |s| && MatchEnd(s, p) == Some(e)
    requires forall k :: 0 <= k < p ==> s[k] != '@'
    requires p > 0 ==> !InClass(s[p - 1], LocalPart)
    requires forall k :: e <= k < |s| ==> s[k] != '@'
    ensures FindUpisFrom(s, 0) == [s[p..e]]
  {
    if p > 0 {
      SkipWithoutAt(s, 0, p - 1);
      ScanPastNonLocal(s, p - 1);
    }
    ScanAtMatch(s, p, e);
    SkipWithoutAt(s, e, |s|);
  }

  /** A text whose only `@` sits between a local-part run of length `l` starting at `p`
      and a handle run of length `h`, where neither run can be extended, holds exactly
      one match: that token. */
  lemma SingleTokenAt(s: string, p: nat, l: nat, h: nat)
    requires p + l + 1 + h <= |s|
    requires forall k :: 0 <= k < p ==> s[k] != '@'
    requires p > 0 ==> !InClass(s[p - 1], LocalPart)
    requires 2 <= l <= 256 && ClassBetween(s, p, p + l, LocalPart) && s[p + l] == '@'
    requires 2 <= h <= 64 && ClassBetween(s, p + l + 1, p + l + 1 + h, Handle)
    requires p + l + 1 + h == |s| || !InClass(s[p + l + 1 + h], Handle)
    requires forall k :: p + l + 1 + h <= k < |s| ==> s[k] != '@'
    ensures FindUpisFrom(s, 0) == [s[p..p + l + 1 + h]]
  {
    MatchEndOfToken(s, p, l, h);
    SingleMatchAt(s, p, p + l + 1 + h);
  }

  /** Text placed before `rest` keeps its characters, so an `@`-free prefix ending in a
      non-local-part character stays so. */
  lemma LayoutBefore(pre: string, rest: string)
    requires forall k :: 0 <= k < |pre| ==> pre[k] != '@'
    requires pre == [] || !InClass(pre[|pre| - 1], LocalPart)
    ensures forall k :: 0 <= k < |pre| ==> (pre + rest)[k] != '@'
    ensures |pre| > 0 ==> !InClass((pre + rest)[|pre| - 1], LocalPart)
  {
    forall k | 0 <= k < |pre| ensures (pre + rest)[k] != '@' {
      assert (pre + rest)[k] == pre[k];
    }
  }

  /** Text placed after `front` keeps its characters, so an `@`-free suffix starting with
      a non-letter stays so. */
  lemma LayoutAfter(front: string, post: string)
    requires post == [] || !InClass(post[0], Handle)
    requires forall k :: 0 <= k < |post| ==> post[k] != '@'
    ensures forall k :: |front| <= k < |front + post| ==> (front + post)[k] != '@'
    ensures |front| == |front + post| || !InClass((front + post)[|front|], Handle)
  {
    forall k | |front| <= k < |front + post| ensures (front + post)[k] != '@' {
      assert (front + post)[k] == post[k - |front|];
    }
  }

  /** The token `local + "@" + handle` inside `pre + token + post`, character by
      character. */
  lemma LayoutToken(pre: string, local: string, handle: string, post: string)
    requires ClassBetween(local, 0, |local|, LocalPart)
    requires ClassBetween(handle, 0, |handle|, Handle)
    ensures var s := pre + (local + "@" + handle) + post;
      var p, l, h := |pre|, |local|, |handle|;
      && s[p..p + l + 1 + h] == local + "@" + handle
      && ClassBetween(s, p, p + l, LocalPart) && s[p + l] == '@'
      && ClassBetween(s, p + l + 1, p + l + 1 + h, Handle)
  {
    var token := local + "@" + handle;
    var s := pre + token + post;
    var p, l, h := |pre|, |local|, |handle|;
    forall k | p <= k < p + l + 1 + h ensures s[k] == token[k - p] { }
    assert s[p..p + l + 1 + h] == token;
    forall k | p <= k < p + l ensures InClass(s[k], LocalPart) {
      assert token[k - p] == local[k - p];
    }
    assert token[l] == '@';
    forall k | p + l + 1 <= k < p + l + 1 + h ensures InClass(s[k], Handle) {
      assert token[k - p] == handle[k - p - l - 1];
    }
  }

  /** In a message made of one UPI-shaped word set off as `SingleUpiMessage` requires,
      the word sits where `SingleTokenAt` needs it. */
  lemma SingleUpiLayout(pre: string, local: string, handle: string, post: string)
    requires forall k :: 0 <= k < |pre| ==> pre[k] != '@'
    requires pre == [] || !InClass(pre[|pre| - 1], LocalPart)
    requires ClassBetween(local, 0, |local|, LocalPart)
    requires ClassBetween(handle, 0, |handle|, Handle)
    requires post == [] || !InClass(post[0], Handle)
    requires forall k :: 0 <= k < |post| ==> post[k] != '@'
    ensures var s := pre + local + "@" + handle + post;
      var p, l, h := |pre|, |local|, |handle|;
      && p + l + 1 + h <= |s| && s[p..p + l + 1 + h] == local + "@" + handle
      && (forall k :: 0 <= k < p ==> s[k] != '@')
      && (p > 0 ==> !InClass(s[p - 1], LocalPart))
      && ClassBetween(s, p, p + l, LocalPart) && s[p + l] == '@'
      && ClassBetween(s, p + l + 1, p + l + 1 + h, Handle)
      && (p + l + 1 + h == |s| || !InClass(s[p + l + 1 + h], Handle))
      && (forall k :: p + l + 1 + h <= k < |s| ==> s[k] != '@')
  {
    var token := local + "@" + handle;
    var s := pre + token + post;
    assert s == pre + local + "@" + handle + post;
    assert s == pre + (token + post);
    LayoutBefore(pre, token + post);
    LayoutAfter(pre + token, post);
    LayoutToken(pre, local, handle, post);
  }

  /** A message holding one UPI-shaped word, set off by characters that can extend
      neither side and with no other `@`, yields exactly that word. */
  lemma SingleUpiMessage(pre: string, local: string, handle: string, post: string)
    requires forall k :: 0 <= k < |pre| ==> pre[k] != '@'
    requires pre == [] || !InClass(pre[|pre| - 1], LocalPart)
    requires 2 <= |local| <= 256 && ClassBetween(local, 0, |local|, LocalPart)
    requires 2 <= |handle| <= 64 && ClassBetween(handle, 0, |handle|, Handle)
    requires post == [] || !InClass(post[0], Handle)
    requires forall k :: 0 <= k < |post| ==> post[k] != '@'
    ensures FindUpis(pre + local + "@" + handle + post) == [local + "@" + handle]
  {
    SingleUpiLayout(pre, local, handle, post);
    SingleTokenAt(pre + local + "@" + handle + post, |pre|, |local|, |handle|);
  }

  /** The scenario "Send money to police@axisb immediately" yields the single match
      `police@axisb` from the pattern alone. */
  lemma PoliceScenarioUpis()
    ensures FindUpis("Send money to " + "police" + "@" + "axisb" + " immediately") == ["police" + "@" + "axisb"]
  {
    var pre, post := "Send money to ", " immediately";
    assert forall k :: 0 <= k < |pre| ==> pre[k] != '@';
    assert forall k :: 0 <= k < |post| ==> post[k] != '@';
    SingleUpiMessage(pre, "police", "axisb", post);
  }

  // ---------------------------------------------------------------------------
  // ExtractionAgent.extract_intelligence
  // ---------------------------------------------------------------------------

  /** The extraction collaborator's JSON reply; a key it leaves out is `None`. */
  datatype ExtractionReply = ExtractionReply(
    upiId: Option<string>,
    bankDetails: Option<string>,
    phishingLinks: Option<seq<string>>)

  /** The URLs of `urls` that are not in `existing`, in their order, repeats included. */
  function Unseen(urls: seq<string>, existing: set<string>): (r: seq<string>)
    ensures |r| <= |urls|
    ensures forall u :: u in r <==> u in urls && u !in existing
  {
    if urls == [] then []
    else (if urls[0] in existing then [] else [urls[0]]) + Unseen(urls[1..], existing)
  }

  /** Filtering keeps message order: it distributes over concatenation. */
  lemma {:induction false} UnseenAppend(a: seq<string>, b: seq<string>, existing: set<string>)
    ensures Unseen(a + b, existing) == Unseen(a, existing) + Unseen(b, existing)
  {
    if a != [] {
      var head := if a[0] in existing then [] else [a[0]];
      assert (a + b)[0] == a[0] && (a + b)[1..] == a[1..] + b;
      calc {
        Unseen(a + b, existing);
        head + Unseen(a[1..] + b, existing);
        { UnseenAppend(a[1..], b, existing); }
        head + (Unseen(a[1..], existing) + Unseen(b, existing));
        (head + Unseen(a[1..], existing)) + Unseen(b, existing);
        Unseen(a, existing) + Unseen(b, existing);
      }
    } else {
      assert a + b == b;
    }
  }

  /** A URL absent from the collaborator's list is appended as often as the message
      contains it; one already there is not appended at all. */
  lemma {:induction false} UnseenCount(urls: seq<string>, existing: set<string>, u: string)
    ensures multiset(Unseen(urls, existing))[u] == if u in existing then 0 else multiset(urls)[u]
  {
    if urls != [] {
      assert urls == [urls[0]] + urls[1..];
      UnseenCount(urls[1..], existing, u);
    }
  }

  /** The collaborator's link list, with a missing list read as empty. */
  function ReplyLinks(reply: ExtractionReply): seq<string> {
    reply.phishingLinks.GetOr([])
  }

  /** What `extract_intelligence` returns, given the collaborator's outcome and the
      matches of the UPI and URL patterns. On failure the record is empty and the matches
      are dropped. Otherwise a truthy collaborator UPI id wins, then the first pattern
      match, if any; bank details pass through; the collaborator's links (none when it
      sent none) stay as a prefix, followed by exactly the message URLs its ORIGINAL list
      lacks, in message order and with repeats. */
  function CombineExtraction(outcome: Result<ExtractionReply>, upis: seq<string>, urls: seq<string>): (r: IntelRecord)
    ensures outcome.Failure? ==> r == EmptyIntel
    ensures outcome.Success? ==>
      var reply := outcome.value;
      var links := ReplyLinks(reply);
      && (Truthy(reply.upiId) ==> r.upiId == reply.upiId)
      && (!Truthy(reply.upiId) && upis != [] ==> r.upiId == Some(upis[0]))
      && (!Truthy(reply.upiId) && upis == [] ==> r.upiId == reply.upiId)
      && r.bankDetails == reply.bankDetails
      && links <= r.phishingLinks
      && r.phishingLinks[|links|..] == Unseen(urls, set l | l in links)
      && (forall u :: u in r.phishingLinks <==> u in links || u in urls)
  {
    match outcome
    case Failure(_) => EmptyIntel
    case Success(reply) =>
      var links := ReplyLinks(reply);
      var all := links + Unseen(urls, set l | l in links);
      assert all[|links|..] == Unseen(urls, set l | l in links);
      IntelRecord(
        if !Truthy(reply.upiId) && upis != [] then Some(upis[0]) else reply.upiId,
        reply.bankDetails,
        all)
  }

  /** A URL repeated in the message and unknown to the collaborator is appended twice. */
  lemma RepeatedUrlAppendedTwice(u: string)
    ensures CombineExtraction(Success(ExtractionReply(None, None, None)), [], [u, u]).phishingLinks == [u, u]
  {
    assert (set l: string | l in [] :: l) == {};
  }

  /** Filtering one more URL of the message extends the filtered prefix by that URL when
      it is not already known. */
  lemma UnseenStep(urls: seq<string>, k: nat, existing: set<string>)
    requires k < |urls|
    ensures Unseen(urls[..k + 1], existing)
      == Unseen(urls[..k], existing) + (if urls[k] in existing then [] else [urls[k]])
  {
    UnseenAppend(urls[..k], [urls[k]], existing);
    assert urls[..k + 1] == urls[..k] + [urls[k]];
  }

  /** The loop of `extract_intelligence` that appends to the link list every message URL
      missing from the list as it stood before the loop. */
  method AppendUnseenUrls(links: seq<string>, urls: seq<string>) returns (result: seq<string>)
    ensures result == links + Unseen(urls, set l | l in links)
  {
    result := links;
    var existing := set l | l in links;
    for k := 0 to |urls|
      invariant result == links + Unseen(urls[..k], existing)
    {
      UnseenStep(urls, k, existing);
      if urls[k] !in existing {
        result := result + [urls[k]];
      }
    }
    assert urls[..|urls|] == urls;
  }

  /** ExtractionAgent.extract_intelligence: run both patterns over the message, ask the
      collaborator, then fill a missing UPI id from the first pattern match and append
      the URLs the collaborator did not report. */
  method ExtractIntelligence(
    message: string,
    llm: string -> Result<ExtractionReply>,
    findUrls: string -> seq<string>)
    returns (data: IntelRecord)
    ensures data == CombineExtraction(llm(message), FindUpis(message), findUrls(message))
    ensures llm(message).Failure? ==> data == EmptyIntel
  {
    var upis := FindUpis(message);
    var urls := findUrls(message);
    var outcome := llm(message);
    match outcome {
      case Failure(_) =>
        data := EmptyIntel;
      case Success(reply) =>
        var upiId := reply.upiId;
        if !Truthy(upiId) && |upis| > 0 {
          upiId := Some(upis[0]);
        }
        var links: seq<string>;
        if reply.phishingLinks.None? || reply.phishingLinks.value == [] {
          links := [];
        } else {
          links := reply.phishingLinks.value;
        }
        if |urls| > 0 {
          links := AppendUnseenUrls(links, urls);
        }
        data := IntelRecord(upiId, reply.bankDetails, links);
    }
  }

  /** With the collaborator answering but reporting no UPI id, a message holding one
      UPI-shaped word (as in "Send money to police@axisb immediately") still yields that
      word as the UPI id, through the pattern. */
  lemma PatternFillsMissingUpi(s: string, p: nat, l: nat, h: nat, reply: ExtractionReply, urls: seq<string>)
    requires p + l + 1 + h <= |s|
    requires forall k :: 0 <= k < p ==> s[k] != '@'
    requires p > 0 ==> !InClass(s[p - 1], LocalPart)
    requires 2 <= l <= 256 && ClassBetween(s, p, p + l, LocalPart) && s[p + l] == '@'
    requires 2 <= h <= 64 && ClassBetween(s, p + l + 1, p + l + 1 + h, Handle)
    requires p + l + 1 + h == |s| || !InClass(s[p + l + 1 + h], Handle)
    requires forall k :: p + l + 1 + h <= k < |s| ==> s[k] != '@'
    requires !Truthy(reply.upiId)
    ensures CombineExtraction(Success(reply), FindUpis(s), urls).upiId == Some(s[p..p + l + 1 + h])
  {
    SingleTokenAt(s, p, l, h);
  }

  /** The scenario message with a collaborator that answers but reports nothing:
      `police@axisb` still becomes the UPI id. */
  lemma PoliceScenarioExtraction()
    ensures CombineExtraction(Success(ExtractionReply(None, None, None)),
      FindUpis("Send money to " + "police" + "@" + "axisb" + " immediately"), []).upiId
      == Some("police" + "@" + "axisb")
  {
    PoliceScenarioUpis();
  }

  // ---------------------------------------------------------------------------
  // OrchestratorAgent.decide_next_step
  // ---------------------------------------------------------------------------

  /** The conversation history handed to the classifier, one map per turn. */
  type History = seq<map<string, string>>

  /** The classifier's JSON decision; a key it leaves out is `None`. */
  datatype Decision = Decision(
    scamDetected: Option<bool>,
    suspicionLevel: Option<string>,
    reasoning: Option<string>)

  /** The reasoning reported when classification fails: `Error: `, at most fifty
      characters of the error, then `...`. */
  function ErrorReasoning(error: string): (r: string)
    ensures 10 <= |r| <= 60
    ensures r[..7] == "Error: " && r[|r| - 3..] == "..."
    ensures r[7..|r| - 3] <= error && |r| - 10 == if |error| < 50 then |error| else 50
  {
    "Error: " + Prefix(error, 50) + "..."
  }

  /** OrchestratorAgent.decide_next_step: the classifier's decision as parsed, or on
      failure a decision that reports no scam at LOW suspicion. */
  function DecideNextStep(message: string, history: History, llm: (string, History) -> Result<Decision>): (d: Decision)
    ensures llm(message, history).Success? ==> d == llm(message, history).value
    ensures llm(message, history).Failure? ==>
      && d.scamDetected == Some(false)
      && d.suspicionLevel == Some("LOW")
      && d.reasoning == Some(ErrorReasoning(llm(message, history).error))
  {
    match llm(message, history)
    case Success(decision) => decision
    case Failure(error) => Decision(Some(false), Some("LOW"), Some(ErrorReasoning(error)))
  }

  /** A failed classification never flags a scam and its reasoning fits in 60 characters. */
  lemma FailedDecisionIsBenign(message: string, history: History, llm: (string, History) -> Result<Decision>)
    requires llm(message, history).Failure?
    ensures var d := DecideNextStep(message, history, llm);
      !d.scamDetected.GetOr(false) && d.suspicionLevel.GetOr("LOW") == "LOW"
      && |d.reasoning.GetOr("")| <= 60
  {
  }

  // ---------------------------------------------------------------------------
  // PersonaAgent.generate_response
  // ---------------------------------------------------------------------------

  /** What the persona collaborator is told: the message, the decision (with defaults
      for missing keys) and the intelligence gathered. */
  datatype PersonaRequest = PersonaRequest(
    message: string,
    scamDetected: bool,
    suspicionLevel: string,
    intel: IntelRecord)

  /** The persona collaborator's JSON reply; a missing `reply` key is `None`. */
  datatype PersonaReply = PersonaReply(reply: Option<string>)

  const DefaultReply: string := "Arre beta, main samajh nahi paayi."
  const FallbackReply: string := "Beta, aawaz kat rahi hai, phir se bolo?"

  /** The context of the persona prompt; a decision without `scam_detected` counts as no
      scam, one without `suspicion_level` as LOW. */
  function PersonaContext(message: string, decision: Decision, intel: IntelRecord): (req: PersonaRequest)
    ensures req.message == message && req.intel == intel
    ensures req.scamDetected <==> decision.scamDetected == Some(true)
    ensures decision.suspicionLevel.None? ==> req.suspicionLevel == "LOW"
    ensures decision.suspicionLevel.Some? ==> req.suspicionLevel == decision.suspicionLevel.value
  {
    PersonaRequest(message, decision.scamDetected.GetOr(false), decision.suspicionLevel.GetOr("LOW"), intel)
  }

  /** PersonaAgent.generate_response: the collaborator's reply text, a stock line when its
      reply lacks one, and another stock line when the call fails. */
  function GenerateResponse(message: string, decision: Decision, intel: IntelRecord, llm: PersonaRequest -> Result<PersonaReply>): (reply: string)
    ensures var outcome := llm(PersonaContext(message, decision, intel));
      && (outcome.Failure? ==> reply == FallbackReply)
      && (outcome.Success? && outcome.value.reply.Some? ==> reply == outcome.value.reply.value)
      && (outcome.Success? && outcome.value.reply.None? ==> reply == DefaultReply)
  {
    match llm(PersonaContext(message, decision, intel))
    case Success(data) => data.reply.GetOr(DefaultReply)
    case Failure(_) => FallbackReply
  }

  /** The persona always answers with something non-empty unless the collaborator itself
      sent an empty reply. */
  lemma ReplyNonEmptyUnlessSentEmpty(message: string, decision: Decision, intel: IntelRecord, llm: PersonaRequest -> Result<PersonaReply>)
    requires llm(PersonaContext(message, decision, intel)) != Success(PersonaReply(Some("")))
    ensures GenerateResponse(message, decision, intel, llm) != ""
  {
  }
}
