/** The bot's view of the phone: one snapshot of the accessibility tree,
    and the queries bot.py runs over it (viewer count, streamer name,
    giveaway badge, pack classification, entry buttons). */
module Screen {
  import opened Search
  import opened Decimal

  datatype Bounds = Bounds(left: int, top: int)

  /** One node of the tree. A missing text or content description reads as
      the empty string; missing bounds read as left 0, top 0. */
  datatype Node = Node(text: string, description: string, bounds: Option<Bounds>)

  /** All nodes of the current screen, in document order. */
  type Snapshot = seq<Node>

  function Left(n: Node): int { if n.bounds.Some? then n.bounds.value.left else 0 }

  function Top(n: Node): int { if n.bounds.Some? then n.bounds.value.top else 0 }

  /** `d(text=t).exists`: some node's text is exactly `t`. */
  predicate HasText(snap: Snapshot, t: string)
  {
    exists i | 0 <= i < |snap| :: snap[i].text == t
  }

  // ── Viewer count (bot.py get_viewer_count) ──

  /** A node in the top-right corner whose whole text is a digit string. */
  predicate IsViewerNode(n: Node)
  {
    IsDigits(n.text) && Left(n) > 700 && Top(n) < 300
  }

  /** The value of the first viewer node, or None. A compact form such as
      "1.3k" is not a digit string, so it is never read. */
  function ViewerCount(snap: Snapshot): (r: Option<nat>)
    ensures r.None? <==> forall i :: 0 <= i < |snap| ==> !IsViewerNode(snap[i])
    ensures r.Some? ==> exists i :: 0 <= i < |snap| && IsViewerNode(snap[i])
                          && r.value == DigitsValue(snap[i].text)
                          && forall j :: 0 <= j < i ==> !IsViewerNode(snap[j])
  {
    FirstIndexFirst(snap, IsViewerNode);
    match FirstIndex(snap, IsViewerNode)
    case None => None
    case Some(i) => Some(DigitsValue(snap[i].text))
  }

  /** Dropping a node whose text is not a plain digit string (a "1.3k",
      a "12 watching") never changes the viewer count. */
  lemma {:induction false} NonDigitTextIgnored(snap: Snapshot, k: nat)
    requires k < |snap| && !IsDigits(snap[k].text)
    ensures ViewerCount(snap[..k] + snap[k + 1..]) == ViewerCount(snap)
  {
    var rest := snap[..k] + snap[k + 1..];
    FirstIndexSkip(snap, IsViewerNode, k);
    FirstIndexFirst(snap, IsViewerNode);
    match FirstIndex(snap, IsViewerNode)
    case None =>
    case Some(i) =>
      assert rest[if i < k then i else i - 1] == snap[i];
  }

  // ── Streamer name (bot.py get_streamer_name) ──

  const Unknown: string := "unknown"
  const ControlLabels: seq<string> := ["Leave", "Ship Time"]

  /** A described node in the top-left band that is not a stream control. */
  predicate IsStreamerNode(n: Node)
  {
    n.description != "" && Left(n) < 200 && 80 < Top(n) < 300
    && n.description !in ControlLabels
  }

  /** The first streamer node's description, or "unknown"; never empty and
      never one of the control labels. */
  function StreamerName(snap: Snapshot): (r: string)
    ensures (forall i :: 0 <= i < |snap| ==> !IsStreamerNode(snap[i])) ==> r == Unknown
    ensures (exists i :: 0 <= i < |snap| && IsStreamerNode(snap[i])) ==>
              exists i :: 0 <= i < |snap| && IsStreamerNode(snap[i]) && r == snap[i].description
                          && forall j :: 0 <= j < i ==> !IsStreamerNode(snap[j])
    ensures r != "" && r !in ControlLabels
  {
    FirstIndexFirst(snap, IsStreamerNode);
    match FirstIndex(snap, IsStreamerNode)
    case None => Unknown
    case Some(i) => snap[i].description
  }

  // ── Pack classification (bot.py check_is_pack_giveaway) ──

  function LowerChar(c: char): char
  {
    if 'A' <= c <= 'Z' then (c as int + 32) as char else c
  }

  /** `s.lower()` on ASCII letters. */
  function Lower(s: string): string
  {
    seq(|s|, i requires 0 <= i < |s| => LowerChar(s[i]))
  }

  predicate OccursAt(s: string, t: string, i: int)
  {
    0 <= i && i + |t| <= |s| && s[i..i + |t|] == t
  }

  /** `t in s` for strings. */
  predicate Contains(s: string, t: string)
  {
    exists i | 0 <= i <= |s| - |t| :: OccursAt(s, t, i)
  }

  /** A node in the upper part of the panel whose text mentions "pack" in
      any letter case. */
  predicate IsPackNode(n: Node)
  {
    Top(n) < 400 && Contains(Lower(n.text), "pack")
  }

  function IsPackGiveaway(panel: Snapshot): (r: bool)
    ensures r <==> exists i :: 0 <= i < |panel| && IsPackNode(panel[i])
  {
    FirstIndexFirst(panel, IsPackNode);
    FirstIndex(panel, IsPackNode).Some?
  }

  /** "PACK", "Pack" and "pack" all classify, and a node without bounds
      counts as being at the top of the screen. */
  lemma {:induction false} PackWordAnyCase(panel: Snapshot, k: nat, t: string)
    requires k < |panel| && panel[k].bounds.None?
    requires |t| == 4 && Lower(t) == "pack" && Contains(panel[k].text, t)
    ensures IsPackGiveaway(panel)
  {
    var s := panel[k].text;
    var i :| 0 <= i <= |s| - |t| && OccursAt(s, t, i);
    assert Lower(s)[i..i + 4] == Lower(s[i..i + 4]);
    assert OccursAt(Lower(s), "pack", i);
    assert IsPackNode(panel[k]);
  }

  // ── Giveaway badge and entry buttons (bot.py has_giveaway,
  //    is_giveaway_still_active, enter_giveaway) ──

  const GiveawayLabel: string := "Giveaway"
  const EntriesLabel: string := "Entries"

  /** `has_giveaway`: some node's whole text is the badge label. */
  function HasGiveaway(snap: Snapshot): (r: bool)
    ensures r <==> exists i :: 0 <= i < |snap| && snap[i].text == GiveawayLabel
  {
    HasText(snap, GiveawayLabel)
  }

  /** The badge is shown, or the panel lists the entries while the results
      are tallied: every screen with the badge or an "Entries" node counts
      as active, and one without the badge only through an "Entries" node. */
  function IsGiveawayStillActive(snap: Snapshot): (r: bool)
    ensures HasGiveaway(snap) ==> r
    ensures (exists i :: 0 <= i < |snap| && snap[i].text == EntriesLabel) ==> r
    ensures r && !HasGiveaway(snap) ==> exists i :: 0 <= i < |snap| && snap[i].text == EntriesLabel
  {
    HasText(snap, GiveawayLabel) || HasText(snap, EntriesLabel)
  }

  /** Only the two labels matter: dropping a node whose text is neither
      "Giveaway" nor "Entries" changes neither check. */
  lemma {:induction false} OtherTextIgnored(snap: Snapshot, k: nat)
    requires k < |snap| && snap[k].text != GiveawayLabel && snap[k].text != EntriesLabel
    ensures HasGiveaway(snap[..k] + snap[k + 1..]) == HasGiveaway(snap)
    ensures IsGiveawayStillActive(snap[..k] + snap[k + 1..]) == IsGiveawayStillActive(snap)
  {
    TextDropped(snap, k, GiveawayLabel);
    TextDropped(snap, k, EntriesLabel);
  }

  lemma TextDropped(snap: Snapshot, k: nat, t: string)
    requires k < |snap| && snap[k].text != t
    ensures HasText(snap[..k] + snap[k + 1..], t) == HasText(snap, t)
  {
    var rest := snap[..k] + snap[k + 1..];
    if HasText(snap, t) {
      var j :| 0 <= j < |snap| && snap[j].text == t;
      assert rest[if j < k then j else j - 1] == snap[j];
    }
    if HasText(rest, t) {
      var i :| 0 <= i < |rest| && rest[i].text == t;
      assert rest[i] == snap[if i < k then i else i + 1];
    }
  }

  /** The entry buttons, most specific first. */
  const EntryLabels: seq<string> := ["Follow Host & Enter Giveaway", "Enter Giveaway", "Enter"]

  /** The first entry button at or after position `i` of EntryLabels that
      the panel shows. */
  function EntryLabelFrom(panel: Snapshot, i: nat): (r: Option<string>)
    requires i <= |EntryLabels|
    ensures r.Some? ==> exists k :: i <= k < |EntryLabels| && r.value == EntryLabels[k]
                          && HasText(panel, r.value)
                          && forall j :: i <= j < k ==> !HasText(panel, EntryLabels[j])
    ensures r.None? <==> forall k :: i <= k < |EntryLabels| ==> !HasText(panel, EntryLabels[k])
    decreases |EntryLabels| - i
  {
    if i == |EntryLabels| then None
    else if HasText(panel, EntryLabels[i]) then Some(EntryLabels[i])
    else EntryLabelFrom(panel, i + 1)
  }

  /** The entry button enter_giveaway taps: the first one, most specific
      first, that the panel shows. */
  function EntryLabel(panel: Snapshot): Option<string>
  {
    EntryLabelFrom(panel, 0)
  }
}
