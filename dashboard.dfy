/** The pure helpers of the monitoring dashboard (frontend/app/page.tsx): the text shown
    for a logged message, the two headline metrics, the hotspot map with its deterministic
    placement of client ids, and the badge, label and colour mappings of the log and the
    intelligence table. */
module Dashboard {
  import opened Intel
  import Collections

  // ---------------------------------------------------------------------------
  // getMessageText
  // ---------------------------------------------------------------------------

  /** A logged message as the dashboard receives it: a plain string, an object that may
      carry a `text` field, or any other JSON value. */
  datatype MessageValue = Text(s: string) | Object(text: Option<string>) | Other

  /** The text displayed for a message: a string as it is, the `text` of an object when
      that is truthy, and otherwise the message's JSON rendering (`stringify`). */
  function GetMessageText(message: MessageValue, stringify: MessageValue -> string): (t: string)
    ensures message.Text? ==> t == message.s
    ensures message.Object? && Truthy(message.text) ==> t == message.text.value
    ensures message.Other? || (message.Object? && !Truthy(message.text)) ==> t == stringify(message)
  {
    match message
    case Text(s) => s
    case Object(text) => if Truthy(text) then text.value else stringify(message)
    case Other => stringify(message)
  }

  // ---------------------------------------------------------------------------
  // Metrics
  // ---------------------------------------------------------------------------

  /** One entry of the interaction log. */
  datatype Interaction = Interaction(
    clientId: Option<string>,
    scamDetected: bool,
    suspicionLevel: Option<string>,
    reasoning: Option<string>,
    extractedIntelligence: Option<IntelRecord>)

  /** The interaction carries a truthy extracted UPI id. */
  predicate UpiFlagged(i: Interaction) {
    i.extractedIntelligence.Some? && Truthy(i.extractedIntelligence.value.upiId)
  }

  /** The number of scammers: one per client id in the turn-count map. */
  function ScammerCount(counts: map<string, int>): (n: nat)
    ensures n == 0 <==> counts == map[]
  {
    |counts.Keys|
  }

  /** A client's first turn adds one scammer; a later turn adds none. */
  lemma ScammerCountAfterTurn(counts: map<string, int>, id: string, turns: int)
    ensures id !in counts ==> ScammerCount(counts[id := turns]) == ScammerCount(counts) + 1
    ensures id in counts ==> ScammerCount(counts[id := turns]) == ScammerCount(counts)
  {
    assert counts[id := turns].Keys == counts.Keys + {id};
  }

  /** The interactions whose extracted UPI id is truthy, in log order, each as often as
      the log holds it (JavaScript's `filter`). */
  function FlaggedInteractions(xs: seq<Interaction>): (r: seq<Interaction>)
    ensures |r| <= |xs|
    ensures forall x :: x in r <==> x in xs && UpiFlagged(x)
    ensures |r| == |xs| <==> forall k :: 0 <= k < |xs| ==> UpiFlagged(xs[k])
  {
    if xs == [] then []
    else
      var rest := FlaggedInteractions(xs[1..]);
      assert forall k :: 1 <= k < |xs| ==> xs[k] == xs[1..][k - 1];
      (if UpiFlagged(xs[0]) then [xs[0]] else []) + rest
  }

  /** The filter keeps repeats: a flagged interaction occurs in the result exactly as
      often as in the log, and an unflagged one not at all. */
  lemma {:induction false} FlaggedInteractionsKeepRepeats(xs: seq<Interaction>)
    ensures forall x :: multiset(FlaggedInteractions(xs))[x] == if UpiFlagged(x) then multiset(xs)[x] else 0
  {
    if xs != [] {
      assert xs == [xs[0]] + xs[1..];
      FlaggedInteractionsKeepRepeats(xs[1..]);
    }
  }

  /** The number of interactions flagged with a UPI id: the length of the filtered log.
      With `UpiFlaggedCountAppend` the bounds below pin it to the number of flagged
      entries, one for a flagged interaction and none for another. */
  function UpiFlaggedCount(xs: seq<Interaction>): (n: nat)
    ensures n <= |xs|
    ensures n == 0 <==> forall x :: x in xs ==> !UpiFlagged(x)
    ensures n == |xs| <==> forall k :: 0 <= k < |xs| ==> UpiFlagged(xs[k])
  {
    var flagged := FlaggedInteractions(xs);
    assert flagged != [] ==> flagged[0] in flagged;
    |flagged|
  }

  /** Counting distributes over the log's growth: new interactions add their own count. */
  lemma {:induction false} UpiFlaggedCountAppend(a: seq<Interaction>, b: seq<Interaction>)
    ensures UpiFlaggedCount(a + b) == UpiFlaggedCount(a) + UpiFlaggedCount(b)
  {
    if a == [] {
      assert a + b == b;
    } else {
      assert (a + b)[0] == a[0] && (a + b)[1..] == a[1..] + b;
      UpiFlaggedCountAppend(a[1..], b);
    }
  }

  // ---------------------------------------------------------------------------
  // Hotspots
  // ---------------------------------------------------------------------------

  /** The hash of a client id: the sum of its character codes, added left to right. It
      is at most the largest code, 0x10FFFF, per character, and zero exactly when every
      character is NUL. */
  function CharCodeSum(id: string): (h: nat)
    ensures h <= 0x10FFFF * |id|
    ensures h == 0 <==> forall k :: 0 <= k < |id| ==> id[k] as nat == 0
  {
    if id == [] then 0
    else
      var init := id[..|id| - 1];
      assert forall k :: 0 <= k < |init| ==> init[k] == id[k];
      CharCodeSum(init) + id[|id| - 1] as nat
  }

  /** The hash of two pieces joined is the sum of their hashes. */
  lemma {:induction false} CharCodeSumAppend(a: string, b: string)
    ensures CharCodeSum(a + b) == CharCodeSum(a) + CharCodeSum(b)
  {
    if b != [] {
      var init := b[..|b| - 1];
      assert (a + b)[..|a + b| - 1] == a + init;
      assert (a + b)[|a + b| - 1] == b[|b| - 1];
      CharCodeSumAppend(a, init);
    } else {
      assert a + b == a;
    }
  }

  /** Taking one character out of an id takes its code out of the hash. */
  lemma {:induction false} CharCodeSumRemove(b: string, j: nat)
    requires j < |b|
    ensures CharCodeSum(b) == CharCodeSum(b[..j] + b[j + 1..]) + b[j] as nat
  {
    var c, front, back := b[j], b[..j], b[j + 1..];
    assert b == (front + [c]) + back;
    CharCodeSumAppend(front + [c], back);
    CharCodeSumAppend(front, [c]);
    CharCodeSumAppend(front, back);
    assert CharCodeSum([c]) == c as nat by {
      assert [c][..0] == [];
    }
  }

  /** Taking the character at `j` out of `b` takes one copy of it out of its multiset. */
  lemma WithoutOne(b: string, j: nat)
    requires j < |b|
    ensures multiset(b[..j] + b[j + 1..]) == multiset(b) - multiset{b[j]}
  {
    assert b == b[..j] + [b[j]] + b[j + 1..];
    assert multiset(b) == multiset(b[..j]) + multiset{b[j]} + multiset(b[j + 1..]);
  }

  /** The hash ignores order: ids with the same characters hash alike. */
  lemma {:induction false} CharCodeSumOfPermutation(a: string, b: string)
    requires multiset(a) == multiset(b)
    ensures CharCodeSum(a) == CharCodeSum(b)
    decreases |a|
  {
    if a != [] {
      var c := a[|a| - 1];
      var init := a[..|a| - 1];
      assert a == init + [c];
      assert c in multiset(b);
      var j :| 0 <= j < |b| && b[j] == c;
      var rest := b[..j] + b[j + 1..];
      assert multiset(init) == multiset(a) - multiset{c} by {
        assert multiset(a) == multiset(init) + multiset{c};
      }
      WithoutOne(b, j);
      CharCodeSumOfPermutation(init, rest);
      CharCodeSumRemove(b, j);
    } else {
      assert |b| == |multiset(b)| == 0;
    }
  }

  /** A hotspot on the 100 by 100 map. */
  datatype Hotspot = Hotspot(id: string, x: int, y: int)

  /** Where a client id is drawn: 30 plus the hash modulo 40 across, 30 plus thirteen
      times the hash modulo 40 down. */
  function Place(id: string): (h: Hotspot)
    ensures h.id == id
    ensures 30 <= h.x < 70 && 30 <= h.y < 70
    ensures h.x - 30 == CharCodeSum(id) % 40 && h.y - 30 == (CharCodeSum(id) * 13) % 40
  {
    var hash := CharCodeSum(id);
    Hotspot(id, 30 + hash % 40, 30 + (hash * 13) % 40)
  }

  /** Ids that are rearrangements of each other land on the same spot. */
  lemma PermutedIdsCollide(a: string, b: string)
    requires multiset(a) == multiset(b)
    ensures Place(a).x == Place(b).x && Place(a).y == Place(b).y
  {
    CharCodeSumOfPermutation(a, b);
  }

  /** The client ids of the log, in log order. */
  function ClientIds(xs: seq<Interaction>): (ids: seq<Option<string>>)
    ensures |ids| == |xs| && forall k :: 0 <= k < |xs| ==> ids[k] == xs[k].clientId
  {
    if xs == [] then [] else [xs[0].clientId] + ClientIds(xs[1..])
  }

  /** The truthy ids of `ids`, in order. */
  function TruthyIds(ids: seq<Option<string>>): (r: seq<string>)
    ensures forall id :: id in r <==> Some(id) in ids && id != ""
    ensures Collections.NoDuplicates(ids) ==> Collections.NoDuplicates(r)
  {
    if ids == [] then []
    else
      var rest := TruthyIds(ids[1..]);
      assert forall k :: 1 <= k < |ids| ==> ids[k] == ids[1..][k - 1];
      if Truthy(ids[0]) then [ids[0].value] + rest else rest
  }

  /** The ids that get a hotspot: each distinct client id of the log once, in order of
      first appearance, with missing and empty ids skipped. */
  function HotspotIds(xs: seq<Interaction>): (ids: seq<string>)
    ensures Collections.NoDuplicates(ids)
    ensures forall id :: id in ids <==> id != "" && exists k :: 0 <= k < |xs| && xs[k].clientId == Some(id)
  {
    var all := ClientIds(xs);
    var ids := TruthyIds(Collections.Distinct(all));
    assert forall id :: Some(id) in all <==> exists k :: 0 <= k < |xs| && xs[k].clientId == Some(id);
    ids
  }

  /** The hotspots of the map: one per distinct truthy client id, each at its place. */
  function Hotspots(xs: seq<Interaction>): (r: seq<Hotspot>)
    ensures |r| == |HotspotIds(xs)|
    ensures forall k :: 0 <= k < |r| ==> r[k] == Place(HotspotIds(xs)[k])
    ensures forall k :: 0 <= k < |r| ==> 30 <= r[k].x < 70 && 30 <= r[k].y < 70
    ensures forall i, j :: 0 <= i < j < |r| ==> r[i].id != r[j].id
  {
    var ids := HotspotIds(xs);
    seq(|ids|, k requires 0 <= k < |ids| => Place(ids[k]))
  }

  // ---------------------------------------------------------------------------
  // Badges, labels and the intelligence table
  // ---------------------------------------------------------------------------

  /** The colours the dashboard draws badges and cards in. */
  datatype Tone = Red | Yellow | Green | Blue

  /** The border of a log card: red for a detected scam, blue otherwise. */
  function CardTone(scamDetected: bool): (t: Tone)
    ensures t == Red <==> scamDetected
    ensures !scamDetected ==> t == Blue
  {
    if scamDetected then Red else Blue
  }

  /** The headline badge of a log card. */
  function ThreatLabel(scamDetected: bool): (caption: string)
    ensures caption == "THREAT DETECTED" <==> scamDetected
    ensures !scamDetected ==> caption == "NORMAL TRAFFIC"
  {
    if scamDetected then "THREAT DETECTED" else "NORMAL TRAFFIC"
  }

  /** The suspicion badge: red for HIGH, yellow for MEDIUM, green for anything else,
      a missing level included. */
  function SuspicionTone(level: Option<string>): (t: Tone)
    ensures t == Red <==> level == Some("HIGH")
    ensures t == Yellow <==> level == Some("MEDIUM")
    ensures t == Green <==> level != Some("HIGH") && level != Some("MEDIUM")
  {
    if level == Some("HIGH") then Red
    else if level == Some("MEDIUM") then Yellow
    else Green
  }

  /** The orchestrator line of a log card: the reasoning when truthy, a placeholder
      otherwise; it is never empty. */
  function ReasoningText(reasoning: Option<string>): (text: string)
    ensures Truthy(reasoning) ==> text == reasoning.value
    ensures !Truthy(reasoning) ==> text == "Analyzing conversation flow..."
    ensures text != ""
  {
    if Truthy(reasoning) then reasoning.value else "Analyzing conversation flow..."
  }

  /** The id line of a log card: `ID: `, at most eight characters of the client id
      (none when it is missing), then `...`. */
  function IdLabel(clientId: Option<string>): (caption: string)
    ensures 7 <= |caption| <= 15
    ensures caption[..4] == "ID: " && caption[|caption| - 3..] == "..."
    ensures clientId.None? ==> caption == "ID: ..."
    ensures clientId.Some? ==> caption[4..|caption| - 3] == Prefix(clientId.value, 8)
  {
    var shown := if clientId.Some? then Prefix(clientId.value, 8) else "";
    "ID: " + shown + "..."
  }

  /** The badge colour of an intelligence row: yellow for UPI, green for BANK, red for
      LINK, and none of them for any other type. */
  function IntelTypeTone(kind: string): (t: Option<Tone>)
    ensures t == Some(Yellow) <==> kind == "UPI"
    ensures t == Some(Green) <==> kind == "BANK"
    ensures t == Some(Red) <==> kind == "LINK"
    ensures t.None? <==> kind != "UPI" && kind != "BANK" && kind != "LINK"
  {
    if kind == "UPI" then Some(Yellow)
    else if kind == "BANK" then Some(Green)
    else if kind == "LINK" then Some(Red)
    else None
  }

  /** The source column of an intelligence row: at most eight characters of a truthy
      source followed by `...`, or `N/A`. */
  function SourceCell(source: Option<string>): (cell: string)
    ensures Truthy(source) ==>
      && 4 <= |cell| <= 11 && cell[|cell| - 3..] == "..."
      && cell[..|cell| - 3] == Prefix(source.value, 8)
    ensures !Truthy(source) ==> cell == "N/A"
  {
    if Truthy(source) then Prefix(source.value, 8) + "..." else "N/A"
  }
}
