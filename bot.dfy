/** The WhatnotBot of bot.py: it scrolls the live feed for a stream with a
    giveaway, enters it, stays until it ends or the wait is capped, logs a
    row, and may stay for one more giveaway on the same stream.

    The phone is observed through snapshots; queries bot.py makes in
    immediate succession may share one. What the bot does to the phone and
    to its log is recorded, in order, in `events`. */
module Bot {
  import opened Search
  import opened Screen
  import opened Policy
  import opened Dwell
  import opened GiveawayLog

  /** Streams inspected by one discovery pass. */
  const MaxScrolls: nat := 30

  // Tap: a tap on the node with this text. Swipe: scroll_to_next_stream's
  // swipe. Stayed: one finished stay_for_giveaway. Logged: one _log_giveaway
  // row.
  datatype Event =
    | Tap(text: string)
    | Swipe
    | Stayed(isPack: bool, wait: Seconds, capped: bool)
    | Logged(row: Row)

  /** The kinds of event the bot counts or pairs up. */
  datatype Kind = EntryTap | Scroll | Stay | LogRow

  predicate OfKind(e: Event, k: Kind)
  {
    match k
    case EntryTap => e.Tap? && e.text in EntryLabels
    case Scroll => e.Swipe?
    case Stay => e.Stayed?
    case LogRow => e.Logged?
  }

  /** How many events of kind `k` the trace holds. */
  function Occurrences(es: seq<Event>, k: Kind): (n: nat)
    ensures n <= |es|
  {
    if |es| == 0 then 0
    else Occurrences(es[..|es| - 1], k) + (if OfKind(es[|es| - 1], k) then 1 else 0)
  }

  lemma {:induction false} Tally(a: seq<Event>, b: seq<Event>)
    ensures forall k :: Occurrences(a + b, k) == Occurrences(a, k) + Occurrences(b, k)
    decreases |b|
  {
    if |b| == 0 {
      assert a + b == a;
    } else {
      assert (a + b)[..|a + b| - 1] == a + b[..|b| - 1];
      Tally(a, b[..|b| - 1]);
    }
  }

  lemma Assoc(a: seq<Event>, b: seq<Event>, c: seq<Event>)
    ensures (a + b) + c == a + (b + c)
  {
  }

  lemma Single(e: Event)
    ensures forall k :: Occurrences([e], k) == if OfKind(e, k) then 1 else 0
  {
    assert [e][..0] == [];
  }

  /** `n` scrolls, and nothing else. */
  lemma {:induction false} SwipesCounted(n: nat)
    ensures forall k :: Occurrences(Repeat(Swipe, n), k) == if k == Scroll then n else 0
  {
    if n > 0 {
      var s := Repeat(Swipe, n);
      assert s[..n - 1] == Repeat(Swipe, n - 1);
      SwipesCounted(n - 1);
    }
  }

  // ── Stays and their log rows ──

  /** `l` is the row that logs the stay `s`: same type, same wait, same cap. */
  predicate LogsStay(s: Event, l: Event)
  {
    s.Stayed? && l.Logged? && l.row.kind == KindCell(s.isPack)
    && l.row.wait == WaitCell(s.wait, s.capped)
  }

  /** Read from the end, the trace is made of stay-row pairs, each row
      logging the stay right before it, and of events that are neither. */
  predicate StaysLogged(es: seq<Event>)
    decreases |es|
  {
    if |es| == 0 then true
    else if es[|es| - 1].Logged? then
      |es| >= 2 && LogsStay(es[|es| - 2], es[|es| - 1]) && StaysLogged(es[..|es| - 2])
    else !es[|es| - 1].Stayed? && StaysLogged(es[..|es| - 1])
  }

  /** Every stay is followed at once by the row that logs it, and every row
      comes right after the stay it logs. */
  predicate EveryStayLogged(es: seq<Event>)
  {
    && (forall i | 0 <= i < |es| && es[i].Stayed? :: i + 1 < |es| && LogsStay(es[i], es[i + 1]))
    && (forall i | 0 <= i < |es| && es[i].Logged? :: 0 < i && LogsStay(es[i - 1], es[i]))
  }

  /** The recursive reading and the positional one agree. */
  lemma StaysLoggedMeaning(es: seq<Event>)
    ensures StaysLogged(es) <==> EveryStayLogged(es)
  {
    if StaysLogged(es) {
      StaysLoggedPositions(es);
    }
    if EveryStayLogged(es) {
      PositionsStaysLogged(es);
    }
  }

  lemma {:induction false} StaysLoggedPositions(es: seq<Event>)
    requires StaysLogged(es)
    ensures EveryStayLogged(es)
    decreases |es|
  {
    var n := |es|;
    if n > 0 {
      var m := if es[n - 1].Logged? then n - 2 else n - 1;
      var front := es[..m];
      StaysLoggedPositions(front);
      forall i | 0 <= i < n && es[i].Stayed?
        ensures i + 1 < n && LogsStay(es[i], es[i + 1])
      {
        if i < m {
          assert front[i] == es[i];
          assert i + 1 < m && front[i + 1] == es[i + 1];
        }
      }
      forall i | 0 <= i < n && es[i].Logged?
        ensures 0 < i && LogsStay(es[i - 1], es[i])
      {
        if i < m {
          assert front[i] == es[i];
          assert front[i - 1] == es[i - 1];
        }
      }
    }
  }

  lemma {:induction false} PositionsStaysLogged(es: seq<Event>)
    requires EveryStayLogged(es)
    ensures StaysLogged(es)
    decreases |es|
  {
    var n := |es|;
    if n > 0 {
      var m := if es[n - 1].Logged? then n - 2 else n - 1;
      if es[n - 1].Logged? {
        assert LogsStay(es[n - 2], es[n - 1]);
      } else {
        assert !es[n - 1].Stayed?;
      }
      var front := es[..m];
      forall i | 0 <= i < m && front[i].Stayed?
        ensures i + 1 < m && LogsStay(front[i], front[i + 1])
      {
        assert front[i] == es[i];
        assert LogsStay(es[i], es[i + 1]);
      }
      forall i | 0 <= i < m && front[i].Logged?
        ensures 0 < i && LogsStay(front[i - 1], front[i])
      {
        assert front[i] == es[i];
        assert LogsStay(es[i - 1], es[i]);
      }
      PositionsStaysLogged(front);
    }
  }

  lemma {:induction false} StaysLoggedConcat(a: seq<Event>, b: seq<Event>)
    requires StaysLogged(a) && StaysLogged(b)
    ensures StaysLogged(a + b)
    decreases |b|
  {
    var c := a + b;
    var n := |b|;
    if n == 0 {
      assert c == a;
    } else if b[n - 1].Logged? {
      assert c[..|c| - 2] == a + b[..n - 2];
      assert c[|c| - 1] == b[n - 1] && c[|c| - 2] == b[n - 2];
      StaysLoggedConcat(a, b[..n - 2]);
    } else {
      assert c[..|c| - 1] == a + b[..n - 1];
      assert c[|c| - 1] == b[n - 1];
      StaysLoggedConcat(a, b[..n - 1]);
    }
  }

  /** Taps and swipes only: no stay and no row. */
  predicate Actions(es: seq<Event>)
  {
    forall i | 0 <= i < |es| :: es[i].Tap? || es[i].Swipe?
  }

  /** Pairing stays with rows makes their counts equal. */
  lemma {:induction false} LoggedStaysCounted(es: seq<Event>)
    requires StaysLogged(es)
    ensures Occurrences(es, Stay) == Occurrences(es, LogRow)
    decreases |es|
  {
    var n := |es|;
    if n > 0 {
      if es[n - 1].Logged? {
        assert es[..n - 1][..n - 2] == es[..n - 2];
        LoggedStaysCounted(es[..n - 2]);
      } else {
        LoggedStaysCounted(es[..n - 1]);
      }
    }
  }

  // ── Entering a giveaway (enter_giveaway) ──

  /** What enter_giveaway reports, and the taps it makes. */
  datatype Entry = Entry(entered: bool, isPack: bool, taps: seq<Event>)

  /** With no badge on `badge`, nothing is tapped; otherwise the badge is
      tapped, the opened `panel` is classified, and the first entry button
      shown on it, if any, is tapped. */
  function EntryOf(badge: Snapshot, panel: Snapshot): (e: Entry)
    ensures !HasGiveaway(badge) ==> e == Entry(false, false, [])
    ensures e.entered <==> HasGiveaway(badge) && EntryLabel(panel).Some?
    ensures HasGiveaway(badge) ==> e.isPack == IsPackGiveaway(panel)
    ensures e.entered ==> e.taps == [Tap(GiveawayLabel), Tap(EntryLabel(panel).value)]
    ensures HasGiveaway(badge) && !e.entered ==> e.taps == [Tap(GiveawayLabel)]
    ensures Occurrences(e.taps, EntryTap) == (if e.entered then 1 else 0)
    ensures Actions(e.taps) && Occurrences(e.taps, Scroll) == 0
  {
    if !HasGiveaway(badge) then Entry(false, false, [])
    else
      var badgeTap := Tap(GiveawayLabel);
      assert !OfKind(badgeTap, EntryTap);
      Single(badgeTap);
      match EntryLabel(panel)
      case None => Entry(false, IsPackGiveaway(panel), [badgeTap])
      case Some(button) =>
        assert OfKind(Tap(button), EntryTap);
        Single(Tap(button));
        Tally([badgeTap], [Tap(button)]);
        assert [badgeTap] + [Tap(button)] == [badgeTap, Tap(button)];
        Entry(true, IsPackGiveaway(panel), [badgeTap, Tap(button)])
  }

  // ── Discovery (find_giveaway_stream) ──

  /** A stream worth opening: it shows the badge and its viewer count is
      unknown or within the pack cap, the looser of the two. */
  predicate Eligible(limits: Limits, snap: Snapshot)
  {
    HasGiveaway(snap)
    && (ViewerCount(snap).None? || ViewerCount(snap).value <= limits.maxViewersPack)
  }

  /** The first eligible stream at or after position `i` among the first
      thirty of `feed`, or thirty when there is none. */
  function FirstEligibleFrom(limits: Limits, feed: seq<Snapshot>, i: nat): (k: nat)
    requires i <= MaxScrolls <= |feed|
    ensures i <= k <= MaxScrolls
    ensures k < MaxScrolls ==> Eligible(limits, feed[k])
    ensures forall j :: i <= j < k ==> !Eligible(limits, feed[j])
    decreases MaxScrolls - i
  {
    if i == MaxScrolls || Eligible(limits, feed[i]) then i
    else FirstEligibleFrom(limits, feed, i + 1)
  }

  /** What find_giveaway_stream returns, and the scrolls it makes first. */
  datatype Discovery = Discovery(found: bool, viewers: Option<nat>, scrolls: nat)

  function DiscoveryOf(limits: Limits, feed: seq<Snapshot>): Discovery
    requires |feed| >= MaxScrolls
  {
    var k := FirstEligibleFrom(limits, feed, 0);
    if k < MaxScrolls then Discovery(true, ViewerCount(feed[k]), k)
    else Discovery(false, None, MaxScrolls)
  }

  /** find_giveaway_stream looks at no more than thirty streams; it reports
      a stream only when it shows the badge and its count is unknown or
      within the pack cap, with every stream before it scrolled past; and
      it reports (False, None) after scrolling past thirty streams none of
      which qualified. Its swipes raise `streams_checked` by the number of
      scrolls and count as nothing else. */
  lemma DiscoveryFirstMatch(limits: Limits, feed: seq<Snapshot>)
    requires |feed| >= MaxScrolls
    ensures var d := DiscoveryOf(limits, feed);
            && d.scrolls <= MaxScrolls
            && (d.found ==> d.scrolls < MaxScrolls && HasGiveaway(feed[d.scrolls])
                            && d.viewers == ViewerCount(feed[d.scrolls])
                            && (d.viewers.None? || d.viewers.value <= limits.maxViewersPack))
            && (!d.found ==> d.scrolls == MaxScrolls && d.viewers.None?)
            && (forall j :: 0 <= j < d.scrolls ==> !Eligible(limits, feed[j]))
            && (forall k :: Occurrences(Repeat(Swipe, d.scrolls), k) == if k == Scroll then d.scrolls else 0)
  {
    SwipesCounted(DiscoveryOf(limits, feed).scrolls);
  }

  // ── One stream with a giveaway (the body of run's loop) ──

  /** One pass of the wait-for-another-giveaway loop: the time since the
      wait began, read at the loop test, and the screen after the sleep. */
  datatype Tick = Tick(clock: Seconds, screen: Snapshot)

  /** What the bot sees when a second giveaway shows up: the screen
      enter_giveaway checks for the badge, the opened panel, the screen
      is_giveaway_still_active checks when no entry button was found, the
      dwell, and the screen the viewer count is read from afterwards. */
  datatype NextGiveaway = NextGiveaway(badge: Snapshot, panel: Snapshot, recheck: Snapshot,
                                       polls: seq<Poll>, after: Snapshot)

  /** What the bot sees on a stream discovery stopped at: the badge check,
      the opened panel, the screen the streamer name is read from, the
      dwell, the screen the viewer count is read from afterwards, the length
      drawn for the wait for another giveaway, that wait's passes, and the
      next giveaway if one shows up. */
  datatype Visit = Visit(badge: Snapshot, panel: Snapshot, header: Snapshot,
                         polls: seq<Poll>, after: Snapshot,
                         window: Seconds, ticks: seq<Tick>, next: NextGiveaway)

  /** The clock passes both wait caps within the observed passes. */
  predicate DwellEnds(limits: Limits, polls: seq<Poll>)
  {
    Ends(polls, limits.maxWaitPack) && Ends(polls, limits.maxWaitOther)
  }

  /** The clock passes the length of the wait within the observed passes. */
  predicate WindowCloses(window: Seconds, ticks: seq<Tick>)
  {
    exists i | 0 <= i < |ticks| :: ticks[i].clock >= window
  }

  predicate VisitEnds(limits: Limits, v: Visit)
  {
    DwellEnds(limits, v.polls) && WindowCloses(v.window, v.ticks)
    && DwellEnds(limits, v.next.polls)
  }

  /** The wait for another giveaway stops on this pass: out of time (tested
      first), or a badge appeared. */
  predicate WindowStop(window: Seconds, t: Tick)
  {
    t.clock >= window || HasGiveaway(t.screen)
  }

  /** The first pass at or after `i` on which the wait stops. */
  function WindowStopFrom(window: Seconds, ticks: seq<Tick>, i: nat): (k: nat)
    requires exists j | i <= j < |ticks| :: ticks[j].clock >= window
    ensures i <= k < |ticks| && WindowStop(window, ticks[k])
    ensures forall j :: i <= j < k ==> !WindowStop(window, ticks[j])
    decreases |ticks| - i
  {
    if WindowStop(window, ticks[i]) then i else WindowStopFrom(window, ticks, i + 1)
  }

  /** A stay and the row that logs it. */
  function DwellEvents(limits: Limits, streamer: string, isPack: bool, polls: seq<Poll>,
                       after: Snapshot): (es: seq<Event>)
    requires DwellEnds(limits, polls)
    ensures StaysLogged(es)
    ensures forall k :: Occurrences(es, k) == if k == Stay || k == LogRow then 1 else 0
    ensures |es| == 2 && es[0] == Stayed(isPack, DwellOutcome(limits, isPack, polls).wait,
                                         DwellOutcome(limits, isPack, polls).capped)
  {
    var o := DwellOutcome(limits, isPack, polls);
    var stay := Stayed(isPack, o.wait, o.capped);
    var row := Logged(FormatRow(streamer, isPack, o.wait, o.capped, ViewerCount(after)));
    Single(stay);
    Single(row);
    Tally([stay], [row]);
    assert [stay] + [row] == [stay, row];
    [stay, row]
  }

  /** A second giveaway: stayed for when entered, and also when no entry
      button was found but it is a pack giveaway or still looks active. */
  function NextEvents(limits: Limits, streamer: string, n: NextGiveaway): seq<Event>
    requires DwellEnds(limits, n.polls)
  {
    var e := EntryOf(n.badge, n.panel);
    if e.entered || e.isPack || IsGiveawayStillActive(n.recheck)
    then e.taps + DwellEvents(limits, streamer, e.isPack, n.polls, n.after)
    else e.taps
  }

  /** The wait for another giveaway: nothing, unless a badge shows up before
      the time is out. */
  function WindowEvents(limits: Limits, streamer: string, v: Visit): seq<Event>
    requires VisitEnds(limits, v)
  {
    var k := WindowStopFrom(v.window, v.ticks, 0);
    if v.ticks[k].clock >= v.window then [] else NextEvents(limits, streamer, v.next)
  }

  /** The stricter cap for a giveaway that is not a pack giveaway, applied
      with the viewer count discovery read. */
  predicate OverOtherCap(limits: Limits, isPack: bool, viewers: Option<nat>)
  {
    !isPack && viewers.Some? && viewers.value > limits.maxViewersOther
  }

  /** After the first dwell the bot waits for another giveaway when the
      current viewer count is known and within the cap for the type, and
      the dwell was not capped. */
  predicate StaysOn(limits: Limits, isPack: bool, current: Option<nat>, capped: bool)
  {
    current.Some? && current.value <= MaxViewers(limits, isPack) && !capped
  }

  /** What the bot does once it stays on a stream: the first stay and its
      row, then the wait for another giveaway when the stream still
      qualifies. */
  function EngagedEvents(limits: Limits, isPack: bool, v: Visit): seq<Event>
    requires VisitEnds(limits, v)
  {
    var streamer := StreamerName(v.header);
    var o := DwellOutcome(limits, isPack, v.polls);
    DwellEvents(limits, streamer, isPack, v.polls, v.after)
    + (if StaysOn(limits, isPack, ViewerCount(v.after), o.capped)
       then WindowEvents(limits, streamer, v) else [])
  }

  /** Everything the bot does on a stream discovery stopped at, given the
      viewer count discovery read there: the entry taps, the stay unless the
      entry failed or the stricter cap rules it out, and the scroll on. */
  function VisitEvents(limits: Limits, viewers: Option<nat>, v: Visit): seq<Event>
    requires VisitEnds(limits, v)
  {
    var e := EntryOf(v.badge, v.panel);
    e.taps
    + (if e.entered && !OverOtherCap(limits, e.isPack, viewers)
       then EngagedEvents(limits, e.isPack, v) else [])
    + [Swipe]
  }

  // ── The run loop ──

  /** One round of run's loop: the feed discovery scrolls through, whether
      the bot gets back into a stream after an empty discovery, and what it
      sees on the stream discovery stops at. */
  datatype Round = Round(feed: seq<Snapshot>, reentered: bool, visit: Visit)

  predicate RoundReady(limits: Limits, r: Round)
  {
    |r.feed| >= MaxScrolls && VisitEnds(limits, r.visit)
  }

  /** The loop goes on after this round: discovery found a stream, or the
      bot got back into one. */
  predicate Continues(limits: Limits, r: Round)
    requires RoundReady(limits, r)
  {
    DiscoveryOf(limits, r.feed).found || r.reentered
  }

  function RoundEvents(limits: Limits, r: Round): seq<Event>
    requires RoundReady(limits, r)
  {
    var d := DiscoveryOf(limits, r.feed);
    Repeat(Swipe, d.scrolls) + (if d.found then VisitEvents(limits, d.viewers, r.visit) else [])
  }

  function RunEvents(limits: Limits, rounds: seq<Round>): seq<Event>
    requires forall i :: 0 <= i < |rounds| ==> RoundReady(limits, rounds[i])
    decreases |rounds|
  {
    if |rounds| == 0 then []
    else
      RoundEvents(limits, rounds[0])
      + (if Continues(limits, rounds[0]) then RunEvents(limits, rounds[1..]) else [])
  }

  // ── What a visit and a run do ──

  /** The run from round `i` on: that round, then the rest if it goes on. */
  lemma RunStep(limits: Limits, rounds: seq<Round>, i: nat)
    requires i < |rounds| && forall j :: 0 <= j < |rounds| ==> RoundReady(limits, rounds[j])
    ensures RunEvents(limits, rounds[i..])
            == RoundEvents(limits, rounds[i])
               + (if Continues(limits, rounds[i]) then RunEvents(limits, rounds[i + 1..]) else [])
  {
    assert rounds[i..][0] == rounds[i];
    assert rounds[i..][1..] == rounds[i + 1..];
  }

  /** One pass of run's loop on the trace: once round `i` is recorded after
      `before`, what the run still owes is the rest of it if it goes on. */
  lemma RunAdvance(limits: Limits, rounds: seq<Round>, i: nat, before: seq<Event>, after: seq<Event>)
    requires i < |rounds| && forall j :: 0 <= j < |rounds| ==> RoundReady(limits, rounds[j])
    requires after == before + RoundEvents(limits, rounds[i])
    ensures before + RunEvents(limits, rounds[i..])
            == after + (if Continues(limits, rounds[i]) then RunEvents(limits, rounds[i + 1..]) else [])
  {
    RunStep(limits, rounds, i);
    var rest := if Continues(limits, rounds[i]) then RunEvents(limits, rounds[i + 1..]) else [];
    Assoc(before, RoundEvents(limits, rounds[i]), rest);
  }

  /** Taps and swipes hold no stay and no row. */
  lemma {:induction false} ActionsQuiet(es: seq<Event>)
    requires Actions(es)
    ensures StaysLogged(es) && Occurrences(es, Stay) == 0 && Occurrences(es, LogRow) == 0
    decreases |es|
  {
    if |es| > 0 {
      ActionsQuiet(es[..|es| - 1]);
    }
  }

  /** A second giveaway: at most one entry tap, and one stay with its row
      exactly when the bot entered it, or it is a pack giveaway, or it
      still looks active. */
  lemma NextGiveawayLogged(limits: Limits, streamer: string, n: NextGiveaway)
    requires DwellEnds(limits, n.polls)
    ensures var es := NextEvents(limits, streamer, n);
            var e := EntryOf(n.badge, n.panel);
            && StaysLogged(es)
            && Occurrences(es, Scroll) == 0
            && Occurrences(es, EntryTap) == (if e.entered then 1 else 0)
            && Occurrences(es, Stay) == Occurrences(es, LogRow)
            && Occurrences(es, Stay)
               == (if e.entered || e.isPack || IsGiveawayStillActive(n.recheck) then 1 else 0)
  {
    var e := EntryOf(n.badge, n.panel);
    ActionsQuiet(e.taps);
    if e.entered || e.isPack || IsGiveawayStillActive(n.recheck) {
      var d := DwellEvents(limits, streamer, e.isPack, n.polls, n.after);
      assert NextEvents(limits, streamer, n) == e.taps + d;
      assert Occurrences(d, Stay) == 1 && Occurrences(d, LogRow) == 1;
      assert Occurrences(d, Scroll) == 0 && Occurrences(d, EntryTap) == 0;
      Joined(e.taps, d);
    } else {
      assert NextEvents(limits, streamer, n) == e.taps;
    }
  }

  /** The wait for another giveaway handles at most one: one stay at most,
      and any at all only when a badge showed on a pass before the time was
      out, every earlier pass showing none. */
  lemma WindowAtMostOne(limits: Limits, streamer: string, v: Visit)
    requires VisitEnds(limits, v)
    ensures var es := WindowEvents(limits, streamer, v);
            && StaysLogged(es)
            && Occurrences(es, Scroll) == 0
            && Occurrences(es, EntryTap) <= 1
            && Occurrences(es, Stay) == Occurrences(es, LogRow) <= 1
            && (es != [] ==>
                  exists i :: 0 <= i < |v.ticks| && v.ticks[i].clock < v.window
                              && HasGiveaway(v.ticks[i].screen)
                              && forall j :: 0 <= j < i ==> !HasGiveaway(v.ticks[j].screen))
  {
    var k := WindowStopFrom(v.window, v.ticks, 0);
    if v.ticks[k].clock < v.window {
      NextGiveawayLogged(limits, streamer, v.next);
      assert forall j :: 0 <= j < k ==> !WindowStop(v.window, v.ticks[j]);
    }
  }

  /** Staying on a stream: its first stay comes first and is logged; a
      second stay, and any entry tap at all, happens only when the viewer
      count read after the first is known and within the cap for the type
      and the first was not capped. */
  lemma EngagedLogged(limits: Limits, isPack: bool, v: Visit)
    requires VisitEnds(limits, v)
    ensures var es := EngagedEvents(limits, isPack, v);
            var o := DwellOutcome(limits, isPack, v.polls);
            && StaysLogged(es)
            && |es| >= 2 && es[0] == Stayed(isPack, o.wait, o.capped)
            && Occurrences(es, Scroll) == 0
            && Occurrences(es, EntryTap) <= 1
            && Occurrences(es, Stay) == Occurrences(es, LogRow)
            && 1 <= Occurrences(es, Stay) <= 2
            && (Occurrences(es, Stay) == 2 ==> StaysOn(limits, isPack, ViewerCount(v.after), o.capped))
            && (Occurrences(es, EntryTap) > 0 ==> StaysOn(limits, isPack, ViewerCount(v.after), o.capped))
  {
    var streamer := StreamerName(v.header);
    var o := DwellOutcome(limits, isPack, v.polls);
    var d := DwellEvents(limits, streamer, isPack, v.polls, v.after);
    var w := if StaysOn(limits, isPack, ViewerCount(v.after), o.capped)
             then WindowEvents(limits, streamer, v) else [];
    assert EngagedEvents(limits, isPack, v) == d + w;
    if StaysOn(limits, isPack, ViewerCount(v.after), o.capped) {
      WindowAtMostOne(limits, streamer, v);
    } else {
      assert w == [];
    }
    StayThenWindow(d, w);
  }

  /** A logged stay followed by a wait that handles at most one more. */
  lemma StayThenWindow(d: seq<Event>, w: seq<Event>)
    requires StaysLogged(d) && |d| == 2
    requires forall k :: Occurrences(d, k) == if k == Stay || k == LogRow then 1 else 0
    requires StaysLogged(w) && Occurrences(w, Scroll) == 0 && Occurrences(w, EntryTap) <= 1
    requires Occurrences(w, Stay) == Occurrences(w, LogRow) <= 1
    ensures var es := d + w;
            && StaysLogged(es) && |es| >= 2 && es[0] == d[0]
            && Occurrences(es, Scroll) == 0 && Occurrences(es, EntryTap) <= 1
            && Occurrences(es, Stay) == Occurrences(es, LogRow)
            && Occurrences(es, Stay) == 1 + Occurrences(w, Stay)
            && Occurrences(es, EntryTap) == Occurrences(w, EntryTap)
  {
    assert Occurrences(d, Stay) == 1 && Occurrences(d, LogRow) == 1;
    assert Occurrences(d, Scroll) == 0 && Occurrences(d, EntryTap) == 0;
    assert (d + w)[0] == d[0];
    Joined(d, w);
  }

  /** Everything on one stream: every stay is logged, at most two of them;
      one scroll, last; at most two entry taps, and any at all exactly when
      enter_giveaway entered; a stay at all exactly when
      the bot entered and the stricter cap did not rule the stream out; and
      a second stay or a second entry tap only when re-engagement was
      allowed. */
  lemma VisitLogged(limits: Limits, viewers: Option<nat>, v: Visit)
    requires VisitEnds(limits, v)
    ensures var es := VisitEvents(limits, viewers, v);
            var e := EntryOf(v.badge, v.panel);
            && StaysLogged(es)
            && Occurrences(es, Stay) == Occurrences(es, LogRow) <= 2
            && Occurrences(es, Scroll) == 1 && es[|es| - 1] == Swipe
            && Occurrences(es, EntryTap) <= 2
            && (Occurrences(es, EntryTap) > 0 <==> e.entered)
            && (Occurrences(es, Stay) > 0 <==> e.entered && !OverOtherCap(limits, e.isPack, viewers))
            && (Occurrences(es, Stay) == 2 ==>
                  StaysOn(limits, e.isPack, ViewerCount(v.after),
                          DwellOutcome(limits, e.isPack, v.polls).capped))
            && (Occurrences(es, EntryTap) == 2 ==>
                  StaysOn(limits, e.isPack, ViewerCount(v.after),
                          DwellOutcome(limits, e.isPack, v.polls).capped))
  {
    var e := EntryOf(v.badge, v.panel);
    var g := if e.entered && !OverOtherCap(limits, e.isPack, viewers)
             then EngagedEvents(limits, e.isPack, v) else [];
    var es := VisitEvents(limits, viewers, v);
    assert es == e.taps + g + [Swipe];
    if e.entered && !OverOtherCap(limits, e.isPack, viewers) {
      EngagedLogged(limits, e.isPack, v);
    } else {
      assert g == [];
    }
    FrameCounts(e.taps, g);
  }

  /** The counts of one stream's trace, from those of its entry taps and of
      what happened while the bot stayed. */
  lemma FrameCounts(a: seq<Event>, g: seq<Event>)
    requires Actions(a) && Occurrences(a, Scroll) == 0 && Occurrences(a, EntryTap) <= 1
    requires StaysLogged(g) && Occurrences(g, Scroll) == 0 && Occurrences(g, EntryTap) <= 1
    requires Occurrences(g, Stay) == Occurrences(g, LogRow) <= 2
    ensures var es := a + g + [Swipe];
            && StaysLogged(es) && es[|es| - 1] == Swipe
            && Occurrences(es, Stay) == Occurrences(es, LogRow) == Occurrences(g, Stay)
            && Occurrences(es, Scroll) == 1
            && Occurrences(es, EntryTap) <= 2
            && Occurrences(es, EntryTap) == Occurrences(a, EntryTap) + Occurrences(g, EntryTap)
  {
    Framed(a, g);
  }

  /** Two traces whose stays are logged, one after the other: the stays
      are still logged, and each kind is counted in one part or the other. */
  lemma Joined(a: seq<Event>, b: seq<Event>)
    requires StaysLogged(a) && StaysLogged(b)
    ensures StaysLogged(a + b)
    ensures Occurrences(a + b, Stay) == Occurrences(a, Stay) + Occurrences(b, Stay)
    ensures Occurrences(a + b, LogRow) == Occurrences(a, LogRow) + Occurrences(b, LogRow)
    ensures Occurrences(a + b, Scroll) == Occurrences(a, Scroll) + Occurrences(b, Scroll)
    ensures Occurrences(a + b, EntryTap) == Occurrences(a, EntryTap) + Occurrences(b, EntryTap)
  {
    Tally(a, b);
    StaysLoggedConcat(a, b);
  }

  /** Taps, then a trace without scrolls, then a swipe: the pairing of the
      middle part survives, and the counts add up. */
  lemma Framed(a: seq<Event>, g: seq<Event>)
    requires Actions(a) && StaysLogged(g) && Occurrences(g, Scroll) == 0
    ensures var es := a + g + [Swipe];
            && StaysLogged(es) && es[|es| - 1] == Swipe
            && Occurrences(es, Stay) == Occurrences(g, Stay)
            && Occurrences(es, LogRow) == Occurrences(g, LogRow)
            && Occurrences(es, Scroll) == Occurrences(a, Scroll) + 1
            && Occurrences(es, EntryTap) == Occurrences(a, EntryTap) + Occurrences(g, EntryTap)
  {
    ActionsQuiet(a);
    Tally(a, g);
    StaysLoggedConcat(a, g);
    var ag := a + g;
    Tally(ag, [Swipe]);
    Single(Swipe);
    StaysLoggedConcat(ag, [Swipe]);
  }

  /** A giveaway that is not a pack giveaway, on a stream whose viewer count
      is over the stricter cap, is skipped after it was entered: the entry
      tap counts, but there is no stay and no row, only the scroll on. */
  lemma OverCapSkipped(limits: Limits, viewers: Option<nat>, v: Visit)
    requires VisitEnds(limits, v)
    requires EntryOf(v.badge, v.panel).entered
    requires OverOtherCap(limits, EntryOf(v.badge, v.panel).isPack, viewers)
    ensures VisitEvents(limits, viewers, v) == EntryOf(v.badge, v.panel).taps + [Swipe]
    ensures var es := VisitEvents(limits, viewers, v);
            Occurrences(es, EntryTap) == 1 && Occurrences(es, Stay) == 0
            && Occurrences(es, LogRow) == 0 && Occurrences(es, Scroll) == 1
  {
    var e := EntryOf(v.badge, v.panel);
    assert e.taps + [] == e.taps;
    ActionsQuiet(e.taps);
    Single(Swipe);
    Tally(e.taps, [Swipe]);
  }

  /** Over a whole run, every stay_for_giveaway is followed by exactly one
      _log_giveaway row for it, and every row follows its stay. */
  lemma {:induction false} RunLogged(limits: Limits, rounds: seq<Round>)
    requires forall i :: 0 <= i < |rounds| ==> RoundReady(limits, rounds[i])
    ensures StaysLogged(RunEvents(limits, rounds))
    ensures Occurrences(RunEvents(limits, rounds), Stay)
            == Occurrences(RunEvents(limits, rounds), LogRow)
    decreases |rounds|
  {
    if |rounds| > 0 {
      var r := rounds[0];
      var d := DiscoveryOf(limits, r.feed);
      var scan := Repeat(Swipe, d.scrolls);
      var visit := if d.found then VisitEvents(limits, d.viewers, r.visit) else [];
      ActionsQuiet(scan);
      if d.found {
        VisitLogged(limits, d.viewers, r.visit);
      }
      StaysLoggedConcat(scan, visit);
      var rest := if Continues(limits, r) then RunEvents(limits, rounds[1..]) else [];
      if Continues(limits, r) {
        RunLogged(limits, rounds[1..]);
      }
      StaysLoggedConcat(scan + visit, rest);
    }
    LoggedStaysCounted(RunEvents(limits, rounds));
  }

  class WhatnotBot {
    const limits: Limits
    var giveawaysEntered: nat
    var streamsChecked: nat
    var events: seq<Event>

    /** The counters count the entry taps and the swipes of the trace. */
    ghost predicate Valid()
      reads this
    {
      giveawaysEntered == Occurrences(events, EntryTap)
      && streamsChecked == Occurrences(events, Scroll)
    }

    constructor(limits: Limits)
      ensures Valid() && this.limits == limits && events == []
      ensures giveawaysEntered == 0 && streamsChecked == 0
    {
      this.limits := limits;
      giveawaysEntered := 0;
      streamsChecked := 0;
      events := [];
    }

    method ScrollToNextStream()
      requires Valid()
      modifies this
      ensures Valid() && events == old(events) + [Swipe]
      ensures streamsChecked == old(streamsChecked) + 1
      ensures giveawaysEntered == old(giveawaysEntered)
    {
      Tally(events, [Swipe]);
      Single(Swipe);
      events := events + [Swipe];
      streamsChecked := streamsChecked + 1;
    }

    method EnterGiveaway(badge: Snapshot, panel: Snapshot) returns (entered: bool, isPack: bool)
      requires Valid()
      modifies this
      ensures Valid()
      ensures var e := EntryOf(badge, panel);
              entered == e.entered && isPack == e.isPack && events == old(events) + e.taps
      ensures giveawaysEntered == old(giveawaysEntered) + (if entered then 1 else 0)
      ensures streamsChecked == old(streamsChecked)
    {
      if !HasGiveaway(badge) {
        return false, false;
      }
      var badgeTap := Tap(GiveawayLabel);
      assert !OfKind(badgeTap, EntryTap);
      Tally(events, [badgeTap]);
      Single(badgeTap);
      events := events + [badgeTap];
      isPack := IsPackGiveaway(panel);
      var i := 0;
      while i < |EntryLabels|
        invariant 0 <= i <= |EntryLabels|
        invariant EntryLabelFrom(panel, i) == EntryLabel(panel)
        invariant Valid() && events == old(events) + [badgeTap]
        invariant giveawaysEntered == old(giveawaysEntered)
        invariant streamsChecked == old(streamsChecked)
      {
        var button := EntryLabels[i];
        if HasText(panel, button) {
          Tally(events, [Tap(button)]);
          Single(Tap(button));
          events := events + [Tap(button)];
          giveawaysEntered := giveawaysEntered + 1;
          Assoc(old(events), [badgeTap], [Tap(button)]);
          assert [badgeTap] + [Tap(button)] == EntryOf(badge, panel).taps;
          return true, isPack;
        }
        i := i + 1;
      }
      entered := false;
    }

    method FindGiveawayStream(feed: seq<Snapshot>) returns (found: bool, viewers: Option<nat>)
      requires Valid() && |feed| >= MaxScrolls
      modifies this
      ensures Valid()
      ensures var d := DiscoveryOf(limits, feed);
              found == d.found && viewers == d.viewers
              && events == old(events) + Repeat(Swipe, d.scrolls)
              && streamsChecked == old(streamsChecked) + d.scrolls
      ensures giveawaysEntered == old(giveawaysEntered)
    {
      var i := 0;
      while i < MaxScrolls
        invariant 0 <= i <= MaxScrolls
        invariant FirstEligibleFrom(limits, feed, i) == FirstEligibleFrom(limits, feed, 0)
        invariant Valid() && events == old(events) + Repeat(Swipe, i)
        invariant streamsChecked == old(streamsChecked) + i
        invariant giveawaysEntered == old(giveawaysEntered)
      {
        var count := ViewerCount(feed[i]);
        if HasGiveaway(feed[i]) && !(count.Some? && count.value > limits.maxViewersPack) {
          return true, count;
        }
        // No badge, or a badge on a stream over the pack cap: scroll on.
        ScrollToNextStream();
        Assoc(old(events), Repeat(Swipe, i), [Swipe]);
        i := i + 1;
      }
      return false, None;
    }

    /** One stay_for_giveaway call, recorded in the trace. */
    method Stay(isPack: bool, polls: seq<Poll>) returns (wait: Seconds, capped: bool)
      requires Valid() && DwellEnds(limits, polls)
      modifies this
      ensures Valid() && Outcome(wait, capped) == DwellOutcome(limits, isPack, polls)
      ensures events == old(events) + [Stayed(isPack, wait, capped)]
      ensures giveawaysEntered == old(giveawaysEntered) && streamsChecked == old(streamsChecked)
    {
      wait, capped := StayForGiveaway(limits, isPack, polls);
      Tally(events, [Stayed(isPack, wait, capped)]);
      Single(Stayed(isPack, wait, capped));
      events := events + [Stayed(isPack, wait, capped)];
    }

    method LogGiveaway(streamer: string, isPack: bool, wait: Seconds, capped: bool,
                       viewers: Option<nat>)
      requires Valid()
      modifies this
      ensures Valid()
      ensures events == old(events) + [Logged(FormatRow(streamer, isPack, wait, capped, viewers))]
      ensures giveawaysEntered == old(giveawaysEntered) && streamsChecked == old(streamsChecked)
    {
      var row := Logged(FormatRow(streamer, isPack, wait, capped, viewers));
      Tally(events, [row]);
      Single(row);
      events := events + [row];
    }

    /** A stay followed by its row, with the viewer count read after it. */
    method StayAndLog(streamer: string, isPack: bool, polls: seq<Poll>, after: Snapshot)
      returns (capped: bool)
      requires Valid() && DwellEnds(limits, polls)
      modifies this
      ensures Valid() && capped == DwellOutcome(limits, isPack, polls).capped
      ensures events == old(events) + DwellEvents(limits, streamer, isPack, polls, after)
    {
      var wait;
      wait, capped := Stay(isPack, polls);
      LogGiveaway(streamer, isPack, wait, capped, ViewerCount(after));
    }

    /** A giveaway that appeared while waiting on the same stream. */
    method EnterNextGiveaway(streamer: string, n: NextGiveaway)
      requires Valid() && DwellEnds(limits, n.polls)
      modifies this
      ensures Valid() && events == old(events) + NextEvents(limits, streamer, n)
    {
      ghost var taps := EntryOf(n.badge, n.panel).taps;
      var entered, isPack := EnterGiveaway(n.badge, n.panel);
      if entered {
        var _ := StayAndLog(streamer, isPack, n.polls, n.after);
        Assoc(old(events), taps, DwellEvents(limits, streamer, isPack, n.polls, n.after));
      } else if isPack || IsGiveawayStillActive(n.recheck) {
        var _ := StayAndLog(streamer, isPack, n.polls, n.after);
        Assoc(old(events), taps, DwellEvents(limits, streamer, isPack, n.polls, n.after));
      }
    }

    /** The wait for another giveaway: the clock is read at the loop test,
        the screen after the sleep; the first badge seen ends the wait. */
    method WaitForAnotherGiveaway(streamer: string, v: Visit)
      requires Valid() && VisitEnds(limits, v)
      modifies this
      ensures Valid() && events == old(events) + WindowEvents(limits, streamer, v)
    {
      var i := 0;
      while v.ticks[i].clock < v.window
        invariant 0 <= i < |v.ticks|
        invariant exists j | i <= j < |v.ticks| :: v.ticks[j].clock >= v.window
        invariant WindowStopFrom(v.window, v.ticks, i) == WindowStopFrom(v.window, v.ticks, 0)
        invariant Valid() && events == old(events)
        decreases |v.ticks| - i
      {
        if HasGiveaway(v.ticks[i].screen) {
          EnterNextGiveaway(streamer, v.next);
          return;
        }
        i := i + 1;
      }
    }

    /** Staying on an entered stream: the first dwell and its row, then the
        wait for another giveaway. */
    method StayOnStream(isPack: bool, v: Visit)
      requires Valid() && VisitEnds(limits, v)
      modifies this
      ensures Valid() && events == old(events) + EngagedEvents(limits, isPack, v)
    {
      var streamer := StreamerName(v.header);
      var capped := StayAndLog(streamer, isPack, v.polls, v.after);
      ghost var first := events;
      var current := ViewerCount(v.after);
      var maxViewers := MaxViewers(limits, isPack);
      if current.Some? && current.value <= maxViewers && !capped {
        WaitForAnotherGiveaway(streamer, v);
      }
      ghost var rest := if StaysOn(limits, isPack, current, capped)
                        then WindowEvents(limits, streamer, v) else [];
      assert events == first + rest;
      Assoc(old(events), DwellEvents(limits, streamer, isPack, v.polls, v.after), rest);
    }

    /** The body of run's loop once discovery found a stream. */
    method HandleFoundStream(viewers: Option<nat>, v: Visit)
      requires Valid() && VisitEnds(limits, v)
      modifies this
      ensures Valid() && events == old(events) + VisitEvents(limits, viewers, v)
    {
      ghost var e := EntryOf(v.badge, v.panel);
      var entered, isPack := EnterGiveaway(v.badge, v.panel);
      ghost var engaged := [];
      if entered {
        if !isPack && viewers.Some? && viewers.value > limits.maxViewersOther {
          ScrollToNextStream();
          assert e.taps + [] == e.taps;
          Assoc(old(events), e.taps, [Swipe]);
          return;
        }
        StayOnStream(isPack, v);
        engaged := EngagedEvents(limits, isPack, v);
      }
      assert events == old(events) + e.taps + engaged;
      ScrollToNextStream();
      Assoc(old(events), e.taps, engaged);
      Assoc(old(events), e.taps + engaged, [Swipe]);
    }

    /** One pass of run's loop; false when the loop stops. */
    method PlayRound(r: Round) returns (goOn: bool)
      requires Valid() && RoundReady(limits, r)
      modifies this
      ensures Valid() && events == old(events) + RoundEvents(limits, r)
      ensures goOn == Continues(limits, r)
    {
      ghost var d := DiscoveryOf(limits, r.feed);
      var found, viewers := FindGiveawayStream(r.feed);
      if !found {
        assert Repeat(Swipe, d.scrolls) + [] == Repeat(Swipe, d.scrolls);
        return r.reentered;
      }
      HandleFoundStream(viewers, r.visit);
      Assoc(old(events), Repeat(Swipe, d.scrolls), VisitEvents(limits, d.viewers, r.visit));
      goOn := true;
    }

    /** run after reaching the category and the first stream, over the
        rounds observed. */
    method Run(categoryFound: bool, firstStream: bool, rounds: seq<Round>)
      requires Valid() && forall i :: 0 <= i < |rounds| ==> RoundReady(limits, rounds[i])
      modifies this
      ensures Valid()
      ensures events == old(events)
                        + (if categoryFound && firstStream then RunEvents(limits, rounds) else [])
    {
      if !categoryFound || !firstStream {
        return;
      }
      ghost var total := old(events) + RunEvents(limits, rounds);
      assert rounds[0..] == rounds;
      var i := 0;
      while i < |rounds|
        invariant 0 <= i <= |rounds|
        invariant Valid()
        invariant total == events + RunEvents(limits, rounds[i..])
      {
        ghost var before := events;
        var goOn := PlayRound(rounds[i]);
        RunAdvance(limits, rounds, i, before, events);
        if !goOn {
          assert events + [] == events;
          return;
        }
        i := i + 1;
      }
      assert events + [] == events;
    }
  }
}
