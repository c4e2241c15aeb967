/**
 * The sweep that announces virtual keys about to expire and keys that lapsed. What was
 * announced is remembered per (key id, expiry), dropped once a key leaves the window, and
 * a sweep stops at the first notice that throws, whether or not its audit row was written.
 */
module KeyExpiry {
  import opened Common

  datatype KeyView = KeyView(id: string, expiresAt: Option<string>, disabled: bool)

  /** What a notice is remembered under. */
  datatype Slot = Slot(id: string, expiresAt: string)

  datatype Notice = Expiring | Expired

  /** The instant a text stands for, in milliseconds; `None` if it stands for none. */
  type DateParse = string -> Option<int>

  // ------------------------------------------------------------------ listing the keys

  function SlotOf(v: KeyView): Option<Slot> {
    if v.expiresAt.Some? then Some(Slot(v.id, v.expiresAt.value)) else None
  }

  function Expiry(v: KeyView, parse: DateParse): Option<int> {
    if v.expiresAt.Some? then parse(v.expiresAt.value) else None
  }

  predicate Selected(v: KeyView, cutoff: int, parse: DateParse) {
    var e := Expiry(v, parse);
    !v.disabled && e.Some? && e.value <= cutoff
  }

  function Insert(sorted: seq<KeyView>, v: KeyView, parse: DateParse): seq<KeyView> {
    if sorted == [] then [v]
    else
      var last := sorted[|sorted| - 1];
      if Expiry(last, parse).Some? && Expiry(v, parse).Some? && Expiry(last, parse).value > Expiry(v, parse).value
      then Insert(sorted[..|sorted| - 1], v, parse) + [last]
      else sorted + [v]
  }

  /** Enabled keys that expire by the cutoff, soonest first. */
  function ListExpiring(views: seq<KeyView>, cutoff: int, parse: DateParse): seq<KeyView> {
    if views == [] then []
    else
      var rest := ListExpiring(views[..|views| - 1], cutoff, parse);
      var v := views[|views| - 1];
      if Selected(v, cutoff, parse) then Insert(rest, v, parse) else rest
  }

  lemma {:induction false} InsertHas(sorted: seq<KeyView>, v: KeyView, parse: DateParse, x: KeyView)
    ensures x in Insert(sorted, v, parse) <==> x in sorted || x == v
  {
    if sorted != [] {
      InsertHas(sorted[..|sorted| - 1], v, parse, x);
      assert sorted == sorted[..|sorted| - 1] + [sorted[|sorted| - 1]];
    }
  }

  lemma {:induction false} ListHas(views: seq<KeyView>, cutoff: int, parse: DateParse, x: KeyView)
    ensures x in ListExpiring(views, cutoff, parse) <==> x in views && Selected(x, cutoff, parse)
  {
    if views != [] {
      var rest, v := views[..|views| - 1], views[|views| - 1];
      ListHas(rest, cutoff, parse, x);
      InsertHas(ListExpiring(rest, cutoff, parse), v, parse, x);
      assert views == rest + [v];
    }
  }

  ghost predicate SortedByExpiry(rows: seq<KeyView>, parse: DateParse) {
    forall i, j :: 0 <= i < j < |rows| ==>
      Expiry(rows[i], parse).Some? && Expiry(rows[j], parse).Some?
      && Expiry(rows[i], parse).value <= Expiry(rows[j], parse).value
  }

  lemma {:induction false} InsertSorted(sorted: seq<KeyView>, v: KeyView, parse: DateParse)
    requires SortedByExpiry(sorted, parse) && Expiry(v, parse).Some?
    requires forall i :: 0 <= i < |sorted| ==> Expiry(sorted[i], parse).Some?
    ensures SortedByExpiry(Insert(sorted, v, parse), parse)
  {
    if sorted != [] {
      var init, last := sorted[..|sorted| - 1], sorted[|sorted| - 1];
      InsertSorted(init, v, parse);
      var inner := Insert(init, v, parse);
      forall i | 0 <= i < |inner| ensures inner[i] in init || inner[i] == v {
        InsertHas(init, v, parse, inner[i]);
      }
    }
  }

  /** Soonest first. */
  lemma {:induction false} ListIsSorted(views: seq<KeyView>, cutoff: int, parse: DateParse)
    ensures SortedByExpiry(ListExpiring(views, cutoff, parse), parse)
  {
    if views != [] {
      var rest := views[..|views| - 1];
      ListIsSorted(rest, cutoff, parse);
      var rows := ListExpiring(rest, cutoff, parse);
      forall i | 0 <= i < |rows| ensures Expiry(rows[i], parse).Some? {
        ListHas(rest, cutoff, parse, rows[i]);
      }
      if Selected(views[|views| - 1], cutoff, parse) {
        InsertSorted(rows, views[|views| - 1], parse);
      }
    }
  }

  // --------------------------------------------------------------------------- one sweep

  /** The fate of a notice: its audit row is written and it returns, it throws with nothing
      written, or it throws all the same. */
  datatype Append = Written | Lost | WrittenAndThrew

  /** A notice that was written, and whether it returned. */
  datatype Sent = Sent(slot: Slot, notice: Notice, returned: bool)

  /** What is remembered, and every notice written so far. */
  datatype Memo = Memo(announced: map<Slot, Notice>, sent: seq<Sent>)

  function Remembered(m: Memo, slot: Slot): Option<Notice> {
    if slot in m.announced then Some(m.announced[slot]) else None
  }

  /** Lapsed longer ago than the lookback. */
  predicate LongGone(now: int, e: int, lookback: int) { e <= now && now - e > lookback }

  /** The notice a key is due, given what was announced before. */
  function Due(now: int, e: int, lookback: int, has: Option<Notice>): Option<Notice> {
    if e <= now then
      if now - e > lookback || has == Some(Expired) then None else Some(Expired)
    else if has.Some? then None
    else Some(Expiring)
  }

  function RowDue(m: Memo, now: int, lookback: int, parse: DateParse, row: KeyView): Option<(Slot, Notice)> {
    var e := Expiry(row, parse);
    if e.None? then None
    else
      var slot := SlotOf(row).value;
      match Due(now, e.value, lookback, Remembered(m, slot))
      case None => None
      case Some(n) => Some((slot, n))
  }

  /** A notice that returned is remembered; one that threw is not. */
  function Send(m: Memo, d: (Slot, Notice), returned: bool): Memo {
    Memo(if returned then m.announced[d.0 := d.1] else m.announced, m.sent + [Sent(d.0, d.1, returned)])
  }

  function Attempt(m: Memo, d: (Slot, Notice), a: Append): (Memo, bool) {
    match a
    case Written => (Send(m, d, true), true)
    case Lost => (m, false)
    case WrittenAndThrew => (Send(m, d, false), false)
  }

  /** The rows in order, up to the first notice that throws; and whether none did. `fate`
      tells of the notice that would be number `n`. */
  function SendRows(m: Memo, now: int, lookback: int, parse: DateParse, rows: seq<KeyView>, fate: nat -> Append)
    : (Memo, bool)
  {
    if rows == [] then (m, true)
    else
      var r := SendRows(m, now, lookback, parse, rows[..|rows| - 1], fate);
      if !r.1 then r
      else match RowDue(r.0, now, lookback, parse, rows[|rows| - 1])
        case None => r
        case Some(d) => Attempt(r.0, d, fate(|r.0.sent|))
  }

  predicate InWindow(rows: seq<KeyView>, now: int, lookback: int, parse: DateParse, slot: Slot) {
    exists i :: 0 <= i < |rows| && SlotOf(rows[i]) == Some(slot) && Expiry(rows[i], parse).Some?
             && !LongGone(now, Expiry(rows[i], parse).value, lookback)
  }

  /** A sweep that ran to its end forgets what is not in the window any more. */
  function Prune(m: Memo, rows: seq<KeyView>, now: int, lookback: int, parse: DateParse): Memo {
    m.(announced := map slot | slot in m.announced && InWindow(rows, now, lookback, parse, slot) :: m.announced[slot])
  }

  function Sweep(m: Memo, now: int, lookback: int, parse: DateParse, rows: seq<KeyView>, fate: nat -> Append)
    : (Memo, bool)
  {
    var r := SendRows(m, now, lookback, parse, rows, fate);
    if r.1 then (Prune(r.0, rows, now, lookback, parse), true) else r
  }

  // ------------------------------------------------------- a sweep as one slot sees it

  /** One slot's notice. */
  datatype Note = Note(notice: Notice, returned: bool)

  function Log(sent: seq<Sent>, slot: Slot): seq<Note> {
    if sent == [] then []
    else if sent[0].slot == slot then [Note(sent[0].notice, sent[0].returned)] + Log(sent[1..], slot)
    else Log(sent[1..], slot)
  }

  lemma {:induction false} LogPush(sent: seq<Sent>, d: Sent, slot: Slot)
    ensures Log(sent + [d], slot)
         == if d.slot == slot then Log(sent, slot) + [Note(d.notice, d.returned)] else Log(sent, slot)
  {
    if sent == [] {
      assert sent + [d] == [d];
    } else {
      LogPush(sent[1..], d, slot);
      assert (sent + [d])[1..] == sent[1..] + [d];
    }
  }

  datatype Seen = Seen(has: Option<Notice>, log: seq<Note>)

  function Sees(m: Memo, slot: Slot): Seen { Seen(Remembered(m, slot), Log(m.sent, slot)) }

  /** One notice, if one is due. */
  function Told(s: Seen, now: int, e: int, lookback: int, returned: bool): Seen {
    match Due(now, e, lookback, s.has)
    case None => s
    case Some(n) => Seen(if returned then Some(n) else s.has, s.log + [Note(n, returned)])
  }

  lemma SendSees(m: Memo, d: (Slot, Notice), returned: bool, slot: Slot)
    ensures Sees(Send(m, d, returned), slot)
         == if d.0 == slot
            then Seen(if returned then Some(d.1) else Remembered(m, slot), Log(m.sent, slot) + [Note(d.1, returned)])
            else Sees(m, slot)
  {
    LogPush(m.sent, Sent(d.0, d.1, returned), slot);
  }

  ghost predicate IsListed(rows: seq<KeyView>, slot: Slot) {
    exists i :: 0 <= i < |rows| && SlotOf(rows[i]) == Some(slot)
  }

  /** What returned is not due again in the same sweep. */
  lemma ToldTwice(s: Seen, now: int, e: int, lookback: int)
    ensures Due(now, e, lookback, Told(s, now, e, lookback, true).has).None?
  {
  }

  /** One row, for one slot. */
  lemma RowTells(m: Memo, now: int, lookback: int, parse: DateParse, row: KeyView, slot: Slot, e: int, a: Append)
    requires parse(slot.expiresAt) == Some(e)
    ensures var d := RowDue(m, now, lookback, parse, row);
            var r := if d.Some? then Attempt(m, d.value, a) else (m, true);
            && (SlotOf(row) != Some(slot) || (d.Some? && a.Lost?) ==> Sees(r.0, slot) == Sees(m, slot))
            && (SlotOf(row) == Some(slot) && !(d.Some? && a.Lost?) ==>
                  Sees(r.0, slot) == Told(Sees(m, slot), now, e, lookback, r.1))
            && (SlotOf(row) == Some(slot) ==> (d.Some? <==> Due(now, e, lookback, Sees(m, slot).has).Some?))
  {
    var d := RowDue(m, now, lookback, parse, row);
    if d.Some? {
      SendSees(m, d.value, true, slot);
      SendSees(m, d.value, false, slot);
    }
  }

  lemma ListedPush(rows: seq<KeyView>, slot: Slot)
    requires rows != []
    ensures IsListed(rows, slot) <==> IsListed(rows[..|rows| - 1], slot) || SlotOf(rows[|rows| - 1]) == Some(slot)
  {
    var init := rows[..|rows| - 1];
    if IsListed(rows, slot) {
      var i :| 0 <= i < |rows| && SlotOf(rows[i]) == Some(slot);
      assert i < |init| ==> init[i] == rows[i];
    }
    if IsListed(init, slot) {
      var i :| 0 <= i < |init| && SlotOf(init[i]) == Some(slot);
      assert init[i] == rows[i];
    }
  }

  /** What a sweep may have told a slot. */
  predicate RowsTold(s: Seen, s': Seen, listed: bool, ok: bool, now: int, e: int, lookback: int) {
    if ok then s' == if listed then Told(s, now, e, lookback, true) else s
    else s' == s || (listed && (s' == Told(s, now, e, lookback, true) || s' == Told(s, now, e, lookback, false)))
  }

  /** However often a slot is listed, it is told at most once per sweep, and exactly as it is
      due if the sweep gets through. */
  lemma {:induction false} RowsTell(
    m: Memo, now: int, lookback: int, parse: DateParse, rows: seq<KeyView>, fate: nat -> Append, slot: Slot, e: int)
    requires parse(slot.expiresAt) == Some(e)
    ensures var r := SendRows(m, now, lookback, parse, rows, fate);
            RowsTold(Sees(m, slot), Sees(r.0, slot), IsListed(rows, slot), r.1, now, e, lookback)
  {
    if rows != [] {
      var init, row := rows[..|rows| - 1], rows[|rows| - 1];
      RowsTell(m, now, lookback, parse, init, fate, slot, e);
      ListedPush(rows, slot);
      var r := SendRows(m, now, lookback, parse, init, fate);
      RowTells(r.0, now, lookback, parse, row, slot, e, fate(|r.0.sent|));
      ToldTwice(Sees(m, slot), now, e, lookback);
    }
  }

  /** One sweep, for one slot: told at most once; if the sweep got through, told if listed,
      and forgotten if out of the window. */
  lemma SweepTells(
    m: Memo, now: int, lookback: int, parse: DateParse, rows: seq<KeyView>, fate: nat -> Append, slot: Slot, e: int)
    requires parse(slot.expiresAt) == Some(e)
    ensures var r := Sweep(m, now, lookback, parse, rows, fate);
            var s, s', listed := Sees(m, slot), Sees(r.0, slot), IsListed(rows, slot);
            if r.1 then
              var u := if listed then Told(s, now, e, lookback, true) else s;
              s' == if listed && !LongGone(now, e, lookback) then u else Seen(None, u.log)
            else RowsTold(s, s', listed, false, now, e, lookback)
  {
    RowsTell(m, now, lookback, parse, rows, fate, slot, e);
    InWindowIff(rows, now, lookback, parse, slot, e);
  }

  lemma InWindowIff(rows: seq<KeyView>, now: int, lookback: int, parse: DateParse, slot: Slot, e: int)
    requires parse(slot.expiresAt) == Some(e)
    ensures InWindow(rows, now, lookback, parse, slot) <==> IsListed(rows, slot) && !LongGone(now, e, lookback)
  {
    if IsListed(rows, slot) {
      var i :| 0 <= i < |rows| && SlotOf(rows[i]) == Some(slot);
      assert Expiry(rows[i], parse) == Some(e);
    }
  }

  // --------------------------------------------------------------------------- all sweeps

  /** One sweep's surroundings: the clock, the key table, the fates of its notices. */
  datatype Tick = Tick(now: int, views: seq<KeyView>, fate: nat -> Append)

  datatype Setup = Setup(window: int, lookback: int, parse: DateParse)

  function Rows(c: Setup, t: Tick): seq<KeyView> { ListExpiring(t.views, t.now + c.window, c.parse) }

  function SweepOf(c: Setup, m: Memo, t: Tick): (Memo, bool) {
    Sweep(m, t.now, c.lookback, c.parse, Rows(c, t), t.fate)
  }

  function AfterSweeps(c: Setup, ticks: seq<Tick>): Memo {
    if ticks == [] then Memo(map[], [])
    else SweepOf(c, AfterSweeps(c, ticks[..|ticks| - 1]), ticks[|ticks| - 1]).0
  }

  /** Sweep `i` got through. */
  predicate Completed(c: Setup, ticks: seq<Tick>, i: nat)
    requires i < |ticks|
  {
    SweepOf(c, AfterSweeps(c, ticks[..i]), ticks[i]).1
  }

  ghost predicate EnabledIn(t: Tick, slot: Slot) {
    exists v :: v in t.views && !v.disabled && SlotOf(v) == Some(slot)
  }

  ghost predicate ClockForward(ticks: seq<Tick>) {
    forall i, j :: 0 <= i < j < |ticks| ==> ticks[i].now <= ticks[j].now
  }

  /** A key that is gone (disabled, deleted or given another expiry) does not come back. */
  ghost predicate StaysGone(ticks: seq<Tick>, slot: Slot) {
    forall i, j, k :: 0 <= i < j < k < |ticks| && EnabledIn(ticks[i], slot) && !EnabledIn(ticks[j], slot)
      ==> !EnabledIn(ticks[k], slot)
  }

  lemma ListedIff(c: Setup, t: Tick, slot: Slot, e: int)
    requires c.parse(slot.expiresAt) == Some(e)
    ensures IsListed(Rows(c, t), slot) <==> EnabledIn(t, slot) && e <= t.now + c.window
  {
    var rows := Rows(c, t);
    if IsListed(rows, slot) {
      var i :| 0 <= i < |rows| && SlotOf(rows[i]) == Some(slot);
      ListHas(t.views, t.now + c.window, c.parse, rows[i]);
    }
    if EnabledIn(t, slot) && e <= t.now + c.window {
      var v :| v in t.views && !v.disabled && SlotOf(v) == Some(slot);
      ListHas(t.views, t.now + c.window, c.parse, v);
      var i :| 0 <= i < |rows| && rows[i] == v;
    }
  }

  predicate Has(log: seq<Note>, k: Notice) {
    exists i :: 0 <= i < |log| && log[i].notice == k
  }

  /** A notice of this kind returned. */
  predicate Returned(log: seq<Note>, k: Notice) {
    exists i :: 0 <= i < |log| && log[i] == Note(k, true)
  }

  /** No notice that returned is ever repeated, and expiring never follows expired. */
  ghost predicate Proper(log: seq<Note>) {
    && (forall i, j :: 0 <= i < j < |log| && log[i].notice == log[j].notice ==> !log[i].returned)
    && (forall i, j :: 0 <= i < j < |log| && log[i].notice == Expired ==> log[j].notice == Expired)
  }

  lemma HasPush(log: seq<Note>, x: Note, k: Notice)
    ensures Has(log + [x], k) <==> Has(log, k) || x.notice == k
    ensures Returned(log + [x], k) <==> Returned(log, k) || x == Note(k, true)
  {
    var all := log + [x];
    assert all[|log|] == x;
    assert forall i :: 0 <= i < |log| ==> all[i] == log[i];
  }

  lemma ProperPush(log: seq<Note>, x: Note)
    requires Proper(log) && !Returned(log, x.notice) && (x.notice == Expiring ==> !Has(log, Expired))
    ensures Proper(log + [x])
  {
    var all := log + [x];
    forall i, j | 0 <= i < j < |all|
      ensures all[i].notice == all[j].notice ==> !all[i].returned
      ensures all[i].notice == Expired ==> all[j].notice == Expired
    {
      assert all[i] == log[i];
      assert log[i] == Note(log[i].notice, log[i].returned);
    }
  }

  /** From sweep `n` on the slot can get no notice. */
  ghost predicate Over(c: Setup, ticks: seq<Tick>, n: nat, slot: Slot, e: int) {
    forall j :: n <= j < |ticks| ==> !IsListed(Rows(c, ticks[j]), slot) || LongGone(ticks[j].now, e, c.lookback)
  }

  /** What is remembered is what returned last, unless the slot left the window for good. */
  ghost predicate SeenFits(s: Seen, over: bool) {
    && Proper(s.log)
    && (s.has == Some(Expiring) ==> Returned(s.log, Expiring) && !Returned(s.log, Expired))
    && (s.has == Some(Expired) ==> Returned(s.log, Expired))
    && (s.has.None? ==> over || (!Returned(s.log, Expiring) && !Returned(s.log, Expired)))
  }

  ghost predicate SlotInv(c: Setup, ticks: seq<Tick>, n: nat, slot: Slot, e: int)
    requires n <= |ticks|
  {
    var s := Sees(AfterSweeps(c, ticks[..n]), slot);
    && SeenFits(s, Over(c, ticks, n, slot, e))
    && (Has(s.log, Expired) ==> n > 0 && e <= ticks[n - 1].now)
    && (s.has.Some? ==> exists i :: 0 <= i < n && EnabledIn(ticks[i], slot) && e <= ticks[i].now + c.window)
  }

  lemma TwoKinds(has: Option<Notice>)
    ensures has == None || has == Some(Expiring) || has == Some(Expired)
  {
    assert has.Some? ==> has.value.Expiring? || has.value.Expired?;
  }

  lemma ToldFits(s: Seen, now: int, e: int, lookback: int, returned: bool)
    requires SeenFits(s, false) && (Has(s.log, Expired) ==> e <= now)
    ensures var t := Told(s, now, e, lookback, returned);
            SeenFits(t, false) && (Has(t.log, Expired) ==> e <= now) && (s.has.Some? ==> t.has.Some?)
  {
    var d := Due(now, e, lookback, s.has);
    if d.Some? {
      var x := Note(d.value, returned);
      TwoKinds(s.has);
      HasPush(s.log, x, Expired);
      HasPush(s.log, x, Expiring);
      ProperPush(s.log, x);
    }
  }

  /** Out of the window after a sweep that got through means no more notices. */
  lemma LeavingIsOver(c: Setup, ticks: seq<Tick>, n: nat, slot: Slot, e: int, i: nat)
    requires c.parse(slot.expiresAt) == Some(e) && ClockForward(ticks) && StaysGone(ticks, slot)
    requires i <= n < |ticks| && EnabledIn(ticks[i], slot) && e <= ticks[i].now + c.window
    requires !IsListed(Rows(c, ticks[n]), slot) || LongGone(ticks[n].now, e, c.lookback)
    ensures Over(c, ticks, n + 1, slot, e)
  {
    ListedIff(c, ticks[n], slot, e);
    forall j | n + 1 <= j < |ticks|
      ensures !IsListed(Rows(c, ticks[j]), slot) || LongGone(ticks[j].now, e, c.lookback)
    {
      ListedIff(c, ticks[j], slot, e);
      if !LongGone(ticks[n].now, e, c.lookback) && i < n {
        assert !EnabledIn(ticks[n], slot);
      }
    }
  }

  lemma {:induction false} SlotInvHolds(c: Setup, ticks: seq<Tick>, n: nat, slot: Slot, e: int)
    requires c.parse(slot.expiresAt) == Some(e) && ClockForward(ticks) && StaysGone(ticks, slot) && n <= |ticks|
    ensures SlotInv(c, ticks, n, slot, e)
  {
    if n > 0 {
      SlotInvHolds(c, ticks, n - 1, slot, e);
      assert ticks[..n][..n - 1] == ticks[..n - 1];
      SlotInvStep(c, ticks, n - 1, slot, e);
    }
  }

  /** Where a sweep leaves a slot that was not over. */
  lemma SweepFits(c: Setup, m: Memo, t: Tick, slot: Slot, e: int)
    requires c.parse(slot.expiresAt) == Some(e) && SeenFits(Sees(m, slot), false)
    requires Has(Sees(m, slot).log, Expired) ==> e <= t.now
    ensures var r := SweepOf(c, m, t);
            var s' := Sees(r.0, slot);
            var inside := IsListed(Rows(c, t), slot) && !LongGone(t.now, e, c.lookback);
            && SeenFits(s', r.1 && !inside) && (Has(s'.log, Expired) ==> e <= t.now)
            && (s'.has.Some? ==> Sees(m, slot).has.Some? || IsListed(Rows(c, t), slot))
            && (r.1 && !inside && s'.has.None? && (Returned(s'.log, Expiring) || Returned(s'.log, Expired)) ==>
                  Sees(m, slot).has.Some?)
  {
    var s := Sees(m, slot);
    SweepTells(m, t.now, c.lookback, c.parse, Rows(c, t), t.fate, slot, e);
    ToldFits(s, t.now, e, c.lookback, true);
    ToldFits(s, t.now, e, c.lookback, false);
  }

  /** A slot that is over gets nothing more. */
  lemma SweepOver(c: Setup, ticks: seq<Tick>, n: nat, m: Memo, slot: Slot, e: int)
    requires c.parse(slot.expiresAt) == Some(e) && n < |ticks| && Over(c, ticks, n, slot, e)
    requires Sees(m, slot).has.None?
    ensures Sees(SweepOf(c, m, ticks[n]).0, slot) == Sees(m, slot) && Over(c, ticks, n + 1, slot, e)
  {
    var t := ticks[n];
    assert !IsListed(Rows(c, t), slot) || LongGone(t.now, e, c.lookback);
    SweepTells(m, t.now, c.lookback, c.parse, Rows(c, t), t.fate, slot, e);
  }

  lemma SlotInvStep(c: Setup, ticks: seq<Tick>, n: nat, slot: Slot, e: int)
    requires c.parse(slot.expiresAt) == Some(e) && ClockForward(ticks) && StaysGone(ticks, slot) && n < |ticks|
    requires SlotInv(c, ticks, n, slot, e)
    ensures SlotInv(c, ticks, n + 1, slot, e)
  {
    assert ticks[..n + 1][..n] == ticks[..n];
    var m, t := AfterSweeps(c, ticks[..n]), ticks[n];
    ListedIff(c, t, slot, e);
    var s, s' := Sees(m, slot), Sees(AfterSweeps(c, ticks[..n + 1]), slot);
    assert n > 0 ==> ticks[n - 1].now <= t.now;
    if s.has.None? && Over(c, ticks, n, slot, e) {
      SweepOver(c, ticks, n, m, slot, e);
    } else {
      SweepFits(c, m, t, slot, e);
      if s.has.Some? {
        var i :| 0 <= i < n && EnabledIn(ticks[i], slot) && e <= ticks[i].now + c.window;
        if !IsListed(Rows(c, t), slot) || LongGone(t.now, e, c.lookback) {
          LeavingIsOver(c, ticks, n, slot, e, i);
        }
      }
    }
  }

  lemma AllFit(c: Setup, ticks: seq<Tick>, slot: Slot, e: int)
    requires c.parse(slot.expiresAt) == Some(e) && ClockForward(ticks) && StaysGone(ticks, slot)
    ensures Proper(Log(AfterSweeps(c, ticks).sent, slot))
  {
    SlotInvHolds(c, ticks, |ticks|, slot, e);
    assert ticks[..|ticks|] == ticks;
  }

  /** Where a key stands: what it would be told. */
  function Phase(now: int, e: int): Notice {
    if e <= now then Expired else Expiring
  }

  /** What one sweep of a process writes for a slot: nothing, or one notice of the kind that the
      clock says, and never one of a kind that returned before. A sweep that gets through
      writes it exactly when the key is in the window and no notice of that kind returned: so
      a notice is repeated exactly when all of its kind so far were written and threw. */
  lemma SweepWritesIff(c: Setup, ticks: seq<Tick>, n: nat, slot: Slot, e: int)
    requires c.parse(slot.expiresAt) == Some(e) && ClockForward(ticks) && StaysGone(ticks, slot) && n < |ticks|
    ensures var t, k := ticks[n], Phase(ticks[n].now, e);
            var log, log' := Log(AfterSweeps(c, ticks[..n]).sent, slot), Log(AfterSweeps(c, ticks[..n + 1]).sent, slot);
            && (log' == log || ((log' == log + [Note(k, true)] || log' == log + [Note(k, false)]) && !Returned(log, k)))
            && (Completed(c, ticks, n) ==>
                  (log' == log + [Note(k, true)] <==>
                   && EnabledIn(t, slot) && e <= t.now + c.window && !LongGone(t.now, e, c.lookback)
                   && !Returned(log, k)))
  {
    SlotInvHolds(c, ticks, n, slot, e);
    assert ticks[..n + 1][..n] == ticks[..n];
    var m, t := AfterSweeps(c, ticks[..n]), ticks[n];
    assert n > 0 ==> ticks[n - 1].now <= t.now;
    ListedIff(c, t, slot, e);
    if Sees(m, slot).has.None? && Over(c, ticks, n, slot, e) {
      SweepOver(c, ticks, n, m, slot, e);
      assert !IsListed(Rows(c, t), slot) || LongGone(t.now, e, c.lookback);
    } else {
      SweepTells(m, t.now, c.lookback, c.parse, Rows(c, t), t.fate, slot, e);
      DueIff(Sees(m, slot), t.now, e, c.lookback);
    }
  }

  lemma DueIff(s: Seen, now: int, e: int, lookback: int)
    requires SeenFits(s, false) && (Has(s.log, Expired) ==> e <= now)
    ensures Due(now, e, lookback, s.has)
         == if LongGone(now, e, lookback) || Returned(s.log, Phase(now, e)) then None else Some(Phase(now, e))
  {
    TwoKinds(s.has);
    if Returned(s.log, Expired) {
      var i :| 0 <= i < |s.log| && s.log[i] == Note(Expired, true);
      assert s.log[i].notice == Expired;
    }
  }

  /** Notices are never taken back. */
  lemma {:induction false} LogGrows(c: Setup, ticks: seq<Tick>, n: nat, slot: Slot, e: int)
    requires c.parse(slot.expiresAt) == Some(e) && n <= |ticks|
    ensures Log(AfterSweeps(c, ticks[..n]).sent, slot) <= Log(AfterSweeps(c, ticks).sent, slot)
    decreases |ticks|
  {
    if n == |ticks| {
      assert ticks[..n] == ticks;
    } else {
      var init, t := ticks[..|ticks| - 1], ticks[|ticks| - 1];
      LogGrows(c, init, n, slot, e);
      assert init[..n] == ticks[..n];
      SweepTells(AfterSweeps(c, init), t.now, c.lookback, c.parse, Rows(c, t), t.fate, slot, e);
    }
  }

  lemma SweepAnnouncesLapsed(c: Setup, ticks: seq<Tick>, slot: Slot, e: int, j: nat)
    requires c.parse(slot.expiresAt) == Some(e) && ClockForward(ticks) && StaysGone(ticks, slot) && c.window >= 0
    requires j < |ticks| && e <= ticks[j].now && ticks[j].now - e <= c.lookback
    requires Completed(c, ticks, j) && EnabledIn(ticks[j], slot)
    ensures Returned(Log(AfterSweeps(c, ticks).sent, slot), Expired)
  {
    SweepWritesIff(c, ticks, j, slot, e);
    LogGrows(c, ticks, j, slot, e);
    LogGrows(c, ticks, j + 1, slot, e);
    var log, early := Log(AfterSweeps(c, ticks[..j]).sent, slot), Log(AfterSweeps(c, ticks[..j + 1]).sent, slot);
    HasPush(log, Note(Expired, true), Expired);
    ReturnedStays(if Returned(log, Expired) then log else early, Log(AfterSweeps(c, ticks).sent, slot), Expired);
  }

  lemma ReturnedStays(log: seq<Note>, more: seq<Note>, k: Notice)
    requires log <= more && Returned(log, k)
    ensures Returned(more, k)
  {
    var i :| 0 <= i < |log| && log[i] == Note(k, true);
    assert more[i] == Note(k, true);
  }

  // ----------------------------------------------------------------------------- a fleet

  /** A sweep of one process. The memory is the process's own: after a restart, or when the
      lock passes to another replica, another process sweeps. */
  datatype FleetTick = FleetTick(who: nat, tick: Tick)

  function All(ticks: seq<FleetTick>): seq<Tick> {
    seq(|ticks|, i requires 0 <= i < |ticks| => ticks[i].tick)
  }

  /** The sweeps of one process. */
  function Of(ticks: seq<FleetTick>, who: nat): seq<Tick> {
    if ticks == [] then []
    else
      var rest := Of(ticks[..|ticks| - 1], who);
      if ticks[|ticks| - 1].who == who then rest + [ticks[|ticks| - 1].tick] else rest
  }

  /** Where they are among all. */
  lemma {:induction false} OfIsAmong(ticks: seq<FleetTick>, who: nat) returns (at: seq<nat>)
    ensures |at| == |Of(ticks, who)|
    ensures forall i :: 0 <= i < |at| ==> at[i] < |ticks| && Of(ticks, who)[i] == ticks[at[i]].tick
    ensures forall i, j :: 0 <= i < j < |at| ==> at[i] < at[j]
  {
    if ticks == [] {
      return [];
    }
    at := OfIsAmong(ticks[..|ticks| - 1], who);
    if ticks[|ticks| - 1].who == who {
      at := at + [|ticks| - 1];
    }
  }

  lemma OfKeeps(ticks: seq<FleetTick>, who: nat, slot: Slot)
    requires ClockForward(All(ticks)) && StaysGone(All(ticks), slot)
    ensures ClockForward(Of(ticks, who)) && StaysGone(Of(ticks, who), slot)
  {
    var at := OfIsAmong(ticks, who);
    var all, own := All(ticks), Of(ticks, who);
    forall i, j | 0 <= i < j < |own| ensures own[i].now <= own[j].now {
      assert own[i] == all[at[i]] && own[j] == all[at[j]];
    }
    forall i, j, k | 0 <= i < j < k < |own| && EnabledIn(own[i], slot) && !EnabledIn(own[j], slot)
      ensures !EnabledIn(own[k], slot)
    {
      assert own[i] == all[at[i]] && own[j] == all[at[j]] && own[k] == all[at[k]];
    }
  }

  // ----------------------------------------------------------- sweeps and the key store

  /** What the key store does: a new key under an id of its own, a key disabled for good, and
      a key's secret rotated, which changes nothing that is listed here. */
  datatype KeyOp = Mint(id: string, expiresAt: Option<string>) | Disable(id: string) | Rotate(id: string)

  datatype Step = Op(op: KeyOp) | SweepBy(who: nat, now: int, fate: nat -> Append)

  function Disabled(views: seq<KeyView>, id: string): seq<KeyView> {
    seq(|views|, i requires 0 <= i < |views| => if views[i].id == id then views[i].(disabled := true) else views[i])
  }

  function Applied(views: seq<KeyView>, op: KeyOp): seq<KeyView> {
    match op
    case Mint(id, expiresAt) => views + [KeyView(id, expiresAt, false)]
    case Disable(id) => Disabled(views, id)
    case Rotate(_) => views
  }

  /** The key table after some steps. */
  function Views(steps: seq<Step>): seq<KeyView> {
    if steps == [] then []
    else
      var rest, last := Views(steps[..|steps| - 1]), steps[|steps| - 1];
      if last.Op? then Applied(rest, last.op) else rest
  }

  /** The sweeps among them, each with the key table it finds. */
  function FleetTicks(steps: seq<Step>): seq<FleetTick> {
    if steps == [] then []
    else
      var init, last := steps[..|steps| - 1], steps[|steps| - 1];
      if last.Op? then FleetTicks(init)
      else FleetTicks(init) + [FleetTick(last.who, Tick(last.now, Views(init), last.fate))]
  }

  ghost predicate IdUsed(views: seq<KeyView>, id: string) {
    exists i :: 0 <= i < |views| && views[i].id == id
  }

  /** A run of the store and its sweepers: new keys have new ids. */
  ghost predicate KeyRun(steps: seq<Step>) {
    steps == [] ||
    var init, last := steps[..|steps| - 1], steps[|steps| - 1];
    KeyRun(init) && (last.Op? && last.op.Mint? ==> !IdUsed(Views(init), last.op.id))
  }

  ghost predicate Enabled(views: seq<KeyView>, slot: Slot) {
    exists v :: v in views && !v.disabled && SlotOf(v) == Some(slot)
  }

  /** The key was there and is not listed any more. */
  ghost predicate Dead(views: seq<KeyView>, slot: Slot) {
    IdUsed(views, slot.id) && !Enabled(views, slot)
  }

  lemma EnabledIsUsed(views: seq<KeyView>, slot: Slot)
    requires Enabled(views, slot)
    ensures IdUsed(views, slot.id)
  {
    var v :| v in views && !v.disabled && SlotOf(v) == Some(slot);
    var i :| 0 <= i < |views| && views[i] == v;
  }

  lemma IdStaysUsed(views: seq<KeyView>, op: KeyOp, id: string)
    requires IdUsed(views, id)
    ensures IdUsed(Applied(views, op), id)
  {
    var i :| 0 <= i < |views| && views[i].id == id;
    assert Applied(views, op)[i].id == id;
  }

  lemma DeadStays(views: seq<KeyView>, op: KeyOp, slot: Slot)
    requires Dead(views, slot) && (op.Mint? ==> !IdUsed(views, op.id))
    ensures Dead(Applied(views, op), slot)
  {
    IdStaysUsed(views, op, slot.id);
    var views' := Applied(views, op);
    forall i | 0 <= i < |views'| && !views'[i].disabled ensures SlotOf(views'[i]) != Some(slot) {
      if i < |views| {
        assert views[i] == views'[i] && views[i] in views;
      }
    }
  }

  /** What earlier sweeps saw binds the key table. */
  ghost predicate GoneFits(ticks: seq<Tick>, views: seq<KeyView>, slot: Slot) {
    && (forall i :: 0 <= i < |ticks| && EnabledIn(ticks[i], slot) ==> IdUsed(views, slot.id))
    && (forall i, j :: 0 <= i < j < |ticks| && EnabledIn(ticks[i], slot) && !EnabledIn(ticks[j], slot) ==>
          Dead(views, slot))
    && StaysGone(ticks, slot)
  }

  lemma GoneFitsOp(ticks: seq<Tick>, views: seq<KeyView>, op: KeyOp, slot: Slot)
    requires GoneFits(ticks, views, slot) && (op.Mint? ==> !IdUsed(views, op.id))
    ensures GoneFits(ticks, Applied(views, op), slot)
  {
    if IdUsed(views, slot.id) {
      IdStaysUsed(views, op, slot.id);
    }
    if Dead(views, slot) {
      DeadStays(views, op, slot);
    }
  }

  lemma GoneFitsTick(ticks: seq<Tick>, t: Tick, slot: Slot)
    requires GoneFits(ticks, t.views, slot)
    ensures GoneFits(ticks + [t], t.views, slot)
  {
    var all := ticks + [t];
    assert EnabledIn(t, slot) <==> Enabled(t.views, slot);
    if Enabled(t.views, slot) {
      EnabledIsUsed(t.views, slot);
    }
    assert forall i :: 0 <= i < |ticks| ==> all[i] == ticks[i];
    forall i, j, k | 0 <= i < j < k < |all| && EnabledIn(all[i], slot) && !EnabledIn(all[j], slot)
      ensures !EnabledIn(all[k], slot)
    {
      assert all[i] == ticks[i] && all[j] == ticks[j];
    }
  }

  lemma AllPush(ticks: seq<FleetTick>, t: FleetTick)
    ensures All(ticks + [t]) == All(ticks) + [t.tick]
  {
  }

  lemma {:induction false} RunFits(steps: seq<Step>, slot: Slot)
    requires KeyRun(steps)
    ensures GoneFits(All(FleetTicks(steps)), Views(steps), slot)
  {
    if steps != [] {
      var init, last := steps[..|steps| - 1], steps[|steps| - 1];
      RunFits(init, slot);
      if last.Op? {
        GoneFitsOp(All(FleetTicks(init)), Views(init), last.op, slot);
      } else {
        var t := FleetTick(last.who, Tick(last.now, Views(init), last.fate));
        AllPush(FleetTicks(init), t);
        GoneFitsTick(All(FleetTicks(init)), t.tick, slot);
      }
    }
  }

  /** In every run of the key store a key that is gone, disabled or never there under that
      expiry, does not come back. */
  lemma GoneKeysStayGone(steps: seq<Step>, slot: Slot)
    requires KeyRun(steps)
    ensures StaysGone(All(FleetTicks(steps)), slot)
  {
    RunFits(steps, slot);
  }

  // ------------------------------------------------------------------------- main results

  /** The sweeps of one process in a run. */
  function Own(steps: seq<Step>, who: nat): seq<Tick> { Of(FleetTicks(steps), who) }

  /** What one process has written for a slot. */
  function Notes(c: Setup, steps: seq<Step>, who: nat, slot: Slot): seq<Note> {
    Log(AfterSweeps(c, Own(steps, who)).sent, slot)
  }

  /** Runs of the key store and its sweepers with a clock that does not run backwards, for a
      slot whose expiry is a date. */
  ghost predicate Timely(c: Setup, steps: seq<Step>, slot: Slot, e: int) {
    c.parse(slot.expiresAt) == Some(e) && KeyRun(steps) && ClockForward(All(FleetTicks(steps)))
  }

  lemma OwnFits(c: Setup, steps: seq<Step>, who: nat, slot: Slot, e: int)
    requires Timely(c, steps, slot, e)
    ensures ClockForward(Own(steps, who)) && StaysGone(Own(steps, who), slot)
  {
    GoneKeysStayGone(steps, slot);
    OfKeeps(FleetTicks(steps), who, slot);
  }

  /** In every run, whatever notices fail and how: a process never repeats a notice that
      returned, and never sends expiring after expired. */
  lemma NoticesAtMostOnce(c: Setup, steps: seq<Step>, who: nat, slot: Slot, e: int)
    requires Timely(c, steps, slot, e)
    ensures Proper(Notes(c, steps, who, slot))
  {
    OwnFits(c, steps, who, slot, e);
    AllFit(c, Own(steps, who), slot, e);
  }

  ghost predicate Atomic(ticks: seq<Tick>) {
    forall i, n :: 0 <= i < |ticks| && 0 <= n ==> ticks[i].fate(n) != WrittenAndThrew
  }

  ghost predicate AllReturned(sent: seq<Sent>) {
    forall i :: 0 <= i < |sent| ==> sent[i].returned
  }

  lemma {:induction false} AtomicRows(
    m: Memo, now: int, lookback: int, parse: DateParse, rows: seq<KeyView>, fate: nat -> Append)
    requires AllReturned(m.sent) && forall n :: fate(n) != WrittenAndThrew
    ensures AllReturned(SendRows(m, now, lookback, parse, rows, fate).0.sent)
  {
    if rows != [] {
      AtomicRows(m, now, lookback, parse, rows[..|rows| - 1], fate);
    }
  }

  lemma {:induction false} AtomicSweeps(c: Setup, ticks: seq<Tick>)
    requires Atomic(ticks)
    ensures AllReturned(AfterSweeps(c, ticks).sent)
  {
    if ticks != [] {
      var init, t := ticks[..|ticks| - 1], ticks[|ticks| - 1];
      AtomicSweeps(c, init);
      AtomicRows(AfterSweeps(c, init), t.now, c.lookback, c.parse, Rows(c, t), t.fate);
    }
  }

  lemma {:induction false} LogReturned(sent: seq<Sent>, slot: Slot, i: nat)
    requires AllReturned(sent) && i < |Log(sent, slot)|
    ensures Log(sent, slot)[i].returned
  {
    if sent[0].slot != slot {
      LogReturned(sent[1..], slot, i);
    } else if i > 0 {
      LogReturned(sent[1..], slot, i - 1);
    }
  }

  lemma {:induction false} OfAtomic(ticks: seq<FleetTick>, who: nat)
    requires Atomic(All(ticks))
    ensures Atomic(Of(ticks, who))
  {
    var at := OfIsAmong(ticks, who);
    forall i, n | 0 <= i < |Of(ticks, who)| && 0 <= n ensures Of(ticks, who)[i].fate(n) != WrittenAndThrew {
      assert All(ticks)[at[i]] == Of(ticks, who)[i];
    }
  }

  /** If no notice is ever written and throws, a process sends each kind at most once. */
  lemma AtomicNoticesAtMostOnce(c: Setup, steps: seq<Step>, who: nat, slot: Slot, e: int)
    requires Timely(c, steps, slot, e) && Atomic(All(FleetTicks(steps)))
    ensures var log := Notes(c, steps, who, slot);
            log == [] || log == [Note(Expiring, true)] || log == [Note(Expired, true)]
            || log == [Note(Expiring, true), Note(Expired, true)]
  {
    NoticesAtMostOnce(c, steps, who, slot, e);
    OfAtomic(FleetTicks(steps), who);
    AtomicSweeps(c, Own(steps, who));
    var sent := AfterSweeps(c, Own(steps, who)).sent;
    forall i | 0 <= i < |Log(sent, slot)| ensures Log(sent, slot)[i].returned {
      LogReturned(sent, slot, i);
    }
    ReturnedOnce(Log(sent, slot));
  }

  lemma {:induction false} ReturnedOnce(log: seq<Note>)
    requires Proper(log) && forall i :: 0 <= i < |log| ==> log[i].returned
    ensures log == [] || log == [Note(Expiring, true)] || log == [Note(Expired, true)]
         || log == [Note(Expiring, true), Note(Expired, true)]
  {
    if log != [] {
      var first, rest := log[0], log[1..];
      assert first.notice == Expiring || first.notice == Expired by {
        assert first.notice.Expiring? || first.notice.Expired?;
      }
      ProperTail(log);
      ReturnedOnce(rest);
      forall i | 0 <= i < |rest| ensures first.notice == Expiring && rest[i].notice == Expired {
        assert rest[i] == log[i + 1];
        assert rest[i].notice.Expiring? || rest[i].notice.Expired?;
      }
      assert rest == [] || rest[0].notice == Expired;
      assert rest == [] || rest == [Note(Expired, true)];
      assert first == Note(first.notice, true) && log == [first] + rest;
    }
  }

  /** What sweep `n` of a process writes for a slot, in every run: nothing, or one notice of the
      kind that the clock says, never of a kind that returned before. A sweep that gets through
      writes one exactly when the key is listed and no notice of that kind returned: so a
      notice is repeated exactly when all of its kind so far were written and threw. */
  lemma NoticeRepeatsIff(c: Setup, steps: seq<Step>, who: nat, n: nat, slot: Slot, e: int)
    requires Timely(c, steps, slot, e) && n < |Own(steps, who)|
    ensures var ticks := Own(steps, who);
            var t, k := ticks[n], Phase(ticks[n].now, e);
            var log, log' := Log(AfterSweeps(c, ticks[..n]).sent, slot), Log(AfterSweeps(c, ticks[..n + 1]).sent, slot);
            && (log' == log || ((log' == log + [Note(k, true)] || log' == log + [Note(k, false)]) && !Returned(log, k)))
            && (Completed(c, ticks, n) ==>
                  (log' == log + [Note(k, true)] <==>
                   && EnabledIn(t, slot) && e <= t.now + c.window && !LongGone(t.now, e, c.lookback)
                   && !Returned(log, k)))
  {
    OwnFits(c, steps, who, slot, e);
    SweepWritesIff(c, Own(steps, who), n, slot, e);
  }

  /** How often a kind returned. */
  function Kinds(log: seq<Note>, k: Notice): nat {
    if log == [] then 0 else (if log[0] == Note(k, true) then 1 else 0) + Kinds(log[1..], k)
  }

  lemma ProperTail(log: seq<Note>)
    requires Proper(log) && log != []
    ensures Proper(log[1..])
  {
    assert forall i :: 0 <= i < |log[1..]| ==> log[1..][i] == log[i + 1];
  }

  lemma {:induction false} NoneReturned(log: seq<Note>, k: Notice)
    requires !Returned(log, k)
    ensures Kinds(log, k) == 0
  {
    if log != [] {
      assert forall i :: 0 <= i < |log[1..]| ==> log[1..][i] == log[i + 1];
      assert log[0] != Note(k, true);
      NoneReturned(log[1..], k);
    }
  }

  lemma {:induction false} ProperKinds(log: seq<Note>, k: Notice)
    requires Proper(log)
    ensures Kinds(log, k) == if Returned(log, k) then 1 else 0
  {
    if log != [] {
      var rest := log[1..];
      ProperTail(log);
      ProperKinds(rest, k);
      assert forall i :: 0 <= i < |rest| ==> rest[i] == log[i + 1];
      if log[0] == Note(k, true) {
        forall i | 0 <= i < |rest| ensures rest[i].notice != k {
          assert log[i + 1].notice != log[0].notice;
        }
        assert !Returned(rest, k);
      } else if Returned(log, k) {
        var i :| 0 <= i < |log| && log[i] == Note(k, true);
        assert rest[i - 1] == Note(k, true);
      } else {
        assert !Returned(rest, k);
      }
    }
  }

  /** If a sweep of a process that gets through finds the key enabled and lapsed no longer ago
      than the lookback, the process sends the expired notice until one returns, which happens
      exactly once. So it does whenever sweeps that get through are at most the lookback
      apart. */
  lemma LapsedKeyIsAnnouncedOnce(c: Setup, steps: seq<Step>, who: nat, slot: Slot, e: int, i: nat, j: nat)
    requires Timely(c, steps, slot, e) && c.window >= 0 && i < j < |Own(steps, who)|
    requires var ticks := Own(steps, who);
             && ticks[i].now < e <= ticks[j].now && ticks[j].now - ticks[i].now <= c.lookback
             && Completed(c, ticks, j) && EnabledIn(ticks[j], slot)
    ensures Proper(Notes(c, steps, who, slot)) && Kinds(Notes(c, steps, who, slot), Expired) == 1
  {
    OwnFits(c, steps, who, slot, e);
    AllFit(c, Own(steps, who), slot, e);
    SweepAnnouncesLapsed(c, Own(steps, who), slot, e, j);
    ProperKinds(Notes(c, steps, who, slot), Expired);
  }

  /** How many notices of a kind return in the processes 0, 1, ... up to `count`. */
  function FleetNotices(c: Setup, steps: seq<Step>, slot: Slot, k: Notice, count: nat): nat {
    if count == 0 then 0
    else FleetNotices(c, steps, slot, k, count - 1) + Kinds(Notes(c, steps, count - 1, slot), k)
  }

  /** In a fleet at most one notice of each kind returns in every process. */
  lemma {:induction false} FleetNoticesBounded(
    c: Setup, steps: seq<Step>, slot: Slot, e: int, k: Notice, count: nat)
    requires Timely(c, steps, slot, e)
    ensures FleetNotices(c, steps, slot, k, count) <= count
  {
    if count > 0 {
      FleetNoticesBounded(c, steps, slot, e, k, count - 1);
      NoticesAtMostOnce(c, steps, count - 1, slot, e);
      ProperKinds(Notes(c, steps, count - 1, slot), k);
    }
  }

  lemma {:induction false} FleetIncludes(c: Setup, steps: seq<Step>, slot: Slot, k: Notice, count: nat, who: nat)
    requires who < count
    ensures FleetNotices(c, steps, slot, k, count) >= Kinds(Notes(c, steps, who, slot), k)
  {
    if who < count - 1 {
      FleetIncludes(c, steps, slot, k, count - 1, who);
    }
  }

  /** If any process's sweep gets through and finds the key enabled and lapsed no longer ago
      than the lookback, the fleet has sent the expired notice: at least one returned, and at
      most one in every process. */
  lemma FleetAnnouncesLapsed(c: Setup, steps: seq<Step>, slot: Slot, e: int, count: nat, who: nat, j: nat)
    requires Timely(c, steps, slot, e) && c.window >= 0 && who < count && j < |Own(steps, who)|
    requires var t := Own(steps, who)[j]; e <= t.now && t.now - e <= c.lookback && EnabledIn(t, slot)
    requires Completed(c, Own(steps, who), j)
    ensures 1 <= FleetNotices(c, steps, slot, Expired, count) <= count
  {
    FleetNoticesBounded(c, steps, slot, e, Expired, count);
    OwnFits(c, steps, who, slot, e);
    AllFit(c, Own(steps, who), slot, e);
    SweepAnnouncesLapsed(c, Own(steps, who), slot, e, j);
    ProperKinds(Notes(c, steps, who, slot), Expired);
    FleetIncludes(c, steps, slot, Expired, count, who);
  }

  // ------------------------------------------------------------------- runs that show it

  /** A key is minted, and then every process sweeps once. */
  function InTurn(slot: Slot, now: int, count: nat): seq<Step> {
    if count == 0 then [Op(Mint(slot.id, Some(slot.expiresAt)))]
    else InTurn(slot, now, count - 1) + [SweepBy(count - 1, now, n => Written)]
  }

  function MintedTick(slot: Slot, now: int, fate: nat -> Append): Tick {
    Tick(now, [KeyView(slot.id, Some(slot.expiresAt), false)], fate)
  }

  lemma {:induction false} InTurnRun(slot: Slot, now: int, count: nat)
    ensures KeyRun(InTurn(slot, now, count))
    ensures Views(InTurn(slot, now, count)) == [KeyView(slot.id, Some(slot.expiresAt), false)]
    ensures forall i :: 0 <= i < |FleetTicks(InTurn(slot, now, count))| ==>
              FleetTicks(InTurn(slot, now, count))[i].tick.now == now
  {
    var steps := InTurn(slot, now, count);
    if count == 0 {
      assert steps[..0] == [];
    } else {
      InTurnRun(slot, now, count - 1);
      assert steps[..|steps| - 1] == InTurn(slot, now, count - 1);
    }
  }

  lemma OfPush(ticks: seq<FleetTick>, t: FleetTick, who: nat)
    ensures Of(ticks + [t], who) == if t.who == who then Of(ticks, who) + [t.tick] else Of(ticks, who)
  {
    assert (ticks + [t])[..|ticks|] == ticks;
  }

  lemma {:induction false} InTurnOwn(slot: Slot, now: int, count: nat, who: nat)
    ensures var own := Own(InTurn(slot, now, count), who);
            if who < count then |own| == 1 && own[0] == MintedTick(slot, now, own[0].fate) && own[0].fate(0) == Written
            else own == []
  {
    var steps := InTurn(slot, now, count);
    if count == 0 {
      assert steps[..0] == [] && FleetTicks(steps) == [];
    } else {
      var before := InTurn(slot, now, count - 1);
      InTurnOwn(slot, now, count - 1, who);
      InTurnRun(slot, now, count - 1);
      assert steps[..|steps| - 1] == before;
      var t := FleetTick(count - 1, MintedTick(slot, now, steps[|steps| - 1].fate));
      assert FleetTicks(steps) == FleetTicks(before) + [t] && t.tick.fate(0) == Written;
      OfPush(FleetTicks(before), t, who);
    }
  }

  /** The first sweep of a process, with only this key there. */
  lemma FirstSweep(c: Setup, slot: Slot, e: int, now: int, fate: nat -> Append)
    requires c.parse(slot.expiresAt) == Some(e) && now < e <= now + c.window
    ensures Log(AfterSweeps(c, [MintedTick(slot, now, fate)]).sent, slot)
         == if fate(0) == Lost then [] else [Note(Expiring, fate(0) == Written)]
  {
    var t, v := MintedTick(slot, now, fate), KeyView(slot.id, Some(slot.expiresAt), false);
    assert [t][..0] == [] && [v][..0] == [];
    var m := Memo(map[], []);
    assert ListExpiring([], now + c.window, c.parse) == [] && Rows(c, t) == [v];
    assert SendRows(m, now, c.lookback, c.parse, [], fate) == (m, true);
    assert RowDue(m, now, c.lookback, c.parse, v) == Some((slot, Expiring));
    assert SendRows(m, now, c.lookback, c.parse, [v], fate) == Attempt(m, (slot, Expiring), fate(0));
    SendSees(m, (slot, Expiring), true, slot);
    SendSees(m, (slot, Expiring), false, slot);
    assert AfterSweeps(c, [t]) == SweepOf(c, m, t).0;
  }

  /** And a notice is repeated in this run: the first was written and threw, the second
      returned. */
  lemma ThrownNoticeIsRepeated(c: Setup, slot: Slot, e: int, now: int) returns (steps: seq<Step>)
    requires c.parse(slot.expiresAt) == Some(e) && now < e <= now + c.window
    ensures Timely(c, steps, slot, e)
    ensures Notes(c, steps, 0, slot) == [Note(Expiring, false), Note(Expiring, true)]
  {
    steps := TwoSweeps(slot, now, n => WrittenAndThrew, n => Written);
    SecondSweep(c, slot, e, now, n => WrittenAndThrew, n => Written);
  }

  lemma SweepPush(steps: seq<Step>, slot: Slot, now: int, fate: nat -> Append)
    requires KeyRun(steps) && Views(steps) == [KeyView(slot.id, Some(slot.expiresAt), false)]
    ensures KeyRun(steps + [SweepBy(0, now, fate)]) && Views(steps + [SweepBy(0, now, fate)]) == Views(steps)
    ensures FleetTicks(steps + [SweepBy(0, now, fate)])
         == FleetTicks(steps) + [FleetTick(0, MintedTick(slot, now, fate))]
  {
    assert (steps + [SweepBy(0, now, fate)])[..|steps|] == steps;
  }

  /** A key is minted, and one process sweeps twice at the same time. */
  lemma TwoSweeps(slot: Slot, now: int, fate: nat -> Append, fate': nat -> Append) returns (steps: seq<Step>)
    ensures KeyRun(steps) && ClockForward(All(FleetTicks(steps)))
    ensures Own(steps, 0) == [MintedTick(slot, now, fate), MintedTick(slot, now, fate')]
  {
    steps := InTurn(slot, now, 0);
    InTurnRun(slot, now, 0);
    assert steps[..0] == [] && FleetTicks(steps) == [];
    SweepPush(steps, slot, now, fate);
    steps := steps + [SweepBy(0, now, fate)];
    var first := [FleetTick(0, MintedTick(slot, now, fate))];
    assert FleetTicks(steps) == first;
    SweepPush(steps, slot, now, fate');
    steps := steps + [SweepBy(0, now, fate')];
    OfPush([], first[0], 0);
    assert [] + [first[0]] == first;
    OfPush(first, FleetTick(0, MintedTick(slot, now, fate')), 0);
  }

  /** After a first notice that threw, a second sweep that gets through sends it again. */
  lemma SecondSweep(c: Setup, slot: Slot, e: int, now: int, fate: nat -> Append, fate': nat -> Append)
    requires c.parse(slot.expiresAt) == Some(e) && now < e <= now + c.window
    requires fate(0) == WrittenAndThrew && fate'(1) == Written
    ensures Log(AfterSweeps(c, [MintedTick(slot, now, fate), MintedTick(slot, now, fate')]).sent, slot)
         == [Note(Expiring, false), Note(Expiring, true)]
  {
    var t, u, v := MintedTick(slot, now, fate), MintedTick(slot, now, fate'),
                   KeyView(slot.id, Some(slot.expiresAt), false);
    assert [t][..0] == [] && [t, u][..1] == [t] && [v][..0] == [];
    var m := Memo(map[], []);
    assert ListExpiring([], now + c.window, c.parse) == [] && Rows(c, t) == [v] && Rows(c, u) == [v];
    assert SendRows(m, now, c.lookback, c.parse, [], fate) == (m, true);
    assert SendRows(m, now, c.lookback, c.parse, [v], fate) == Attempt(m, (slot, Expiring), fate(0));
    var m' := AfterSweeps(c, [t]);
    assert AfterSweeps(c, [t]) == SweepOf(c, m, t).0;
    assert m' == Send(m, (slot, Expiring), false) && |m'.sent| == 1;
    assert SendRows(m', now, c.lookback, c.parse, [], fate') == (m', true);
    assert RowDue(m', now, c.lookback, c.parse, v) == Some((slot, Expiring));
    assert SendRows(m', now, c.lookback, c.parse, [v], fate') == Attempt(m', (slot, Expiring), fate'(1));
    SendSees(m, (slot, Expiring), false, slot);
    SendSees(m', (slot, Expiring), true, slot);
  }

  /** The fleet's bound is reached: once-only holds for each process, not for a fleet. */
  lemma {:induction false} FleetBoundIsReached(c: Setup, slot: Slot, e: int, now: int, count: nat, n: nat)
    requires c.parse(slot.expiresAt) == Some(e) && now < e <= now + c.window && n <= count
    ensures Timely(c, InTurn(slot, now, count), slot, e)
    ensures FleetNotices(c, InTurn(slot, now, count), slot, Expiring, n) == n
  {
    InTurnRun(slot, now, count);
    if n > 0 {
      FleetBoundIsReached(c, slot, e, now, count, n - 1);
      InTurnOwn(slot, now, count, n - 1);
      var own := Own(InTurn(slot, now, count), n - 1);
      assert own == [MintedTick(slot, now, own[0].fate)];
      FirstSweep(c, slot, e, now, own[0].fate);
      assert [Note(Expiring, true)][1..] == [];
    }
  }

  // --------------------------------------------------------------------------- the sweeper

  datatype Result = Result(scanned: nat, expiring: nat, expired: nat, skipped: bool)

  const SKIPPED: Result := Result(0, 0, 0, true)

  /** How many notices of a kind returned. */
  function Count(sent: seq<Sent>, n: Notice): nat {
    if sent == [] then 0
    else Count(sent[..|sent| - 1], n) + if sent[|sent| - 1].notice == n && sent[|sent| - 1].returned then 1 else 0
  }

  lemma CountPush(before: seq<Sent>, sent: seq<Sent>, d: Sent, n: Notice)
    requires before <= sent
    ensures Count((sent + [d])[|before|..], n)
         == Count(sent[|before|..], n) + if d.notice == n && d.returned then 1 else 0
  {
    var more := (sent + [d])[|before|..];
    assert more[..|more| - 1] == sent[|before|..];
  }

  lemma InWindowPush(rows: seq<KeyView>, i: nat, now: int, lookback: int, parse: DateParse, slot: Slot)
    requires i < |rows|
    ensures InWindow(rows[..i + 1], now, lookback, parse, slot)
         == (InWindow(rows[..i], now, lookback, parse, slot)
             || (SlotOf(rows[i]) == Some(slot) && Expiry(rows[i], parse).Some?
                 && !LongGone(now, Expiry(rows[i], parse).value, lookback)))
  {
    assert rows[..i + 1] == rows[..i] + [rows[i]];
    assert (rows[..i] + [rows[i]])[i] == rows[i];
    if InWindow(rows[..i], now, lookback, parse, slot) {
      var j :| 0 <= j < i && SlotOf(rows[..i][j]) == Some(slot) && Expiry(rows[..i][j], parse).Some?
            && !LongGone(now, Expiry(rows[..i][j], parse).value, lookback);
      assert rows[..i + 1][j] == rows[..i][j];
    }
  }

  class KeyExpirySweeper {
    var announced: map<Slot, Notice>
    var sent: seq<Sent>
    var inFlight: bool

    ghost function State(): (m: Memo)
      reads this
    {
      Memo(announced, sent)
    }

    constructor ()
      ensures State() == Memo(map[], []) && !inFlight
    {
      announced, sent, inFlight := map[], [], false;
    }

    /** The announcing loop: stops at the first notice that throws. */
    method Announce(now: int, lookback: int, parse: DateParse, rows: seq<KeyView>, fate: nat -> Append)
      returns (ok: bool, live: set<Slot>, expiring: nat, expired: nat)
      modifies this`announced, this`sent
      ensures (State(), ok) == SendRows(old(State()), now, lookback, parse, rows, fate)
      ensures ok ==> forall slot :: slot in live <==> InWindow(rows, now, lookback, parse, slot)
      ensures old(sent) <= sent
      ensures expiring == Count(sent[|old(sent)|..], Expiring) && expired == Count(sent[|old(sent)|..], Expired)
    {
      live, expiring, expired := {}, 0, 0;
      assert sent[|old(sent)|..] == [];
      for i := 0 to |rows|
        invariant (State(), true) == SendRows(old(State()), now, lookback, parse, rows[..i], fate)
        invariant forall slot :: slot in live <==> InWindow(rows[..i], now, lookback, parse, slot)
        invariant old(sent) <= sent
        invariant expiring == Count(sent[|old(sent)|..], Expiring) && expired == Count(sent[|old(sent)|..], Expired)
      {
        assert rows[..i + 1][..i] == rows[..i];
        forall slot { InWindowPush(rows, i, now, lookback, parse, slot); }
        var due := RowDue(Memo(announced, sent), now, lookback, parse, rows[i]);
        var e := Expiry(rows[i], parse);
        if e.Some? && !LongGone(now, e.value, lookback) {
          live := live + {SlotOf(rows[i]).value};
        }
        if due.Some? {
          var a := fate(|sent|);
          var note := Sent(due.value.0, due.value.1, a.Written?);
          CountPush(old(sent), sent, note, Expiring);
          CountPush(old(sent), sent, note, Expired);
          if !a.Written? {
            SendRowsStop(old(State()), now, lookback, parse, rows, fate, i);
            if a.WrittenAndThrew? {
              sent := sent + [note];
            }
            return false, live, expiring, expired;
          }
          announced, sent := announced[due.value.0 := due.value.1], sent + [note];
          if due.value.1 == Expired {
            expired := expired + 1;
          } else {
            expiring := expiring + 1;
          }
        }
      }
      assert rows[..|rows|] == rows;
      return true, live, expiring, expired;
    }

    /** One run under the lock; nothing is returned when a notice throws. */
    method Run(now: int, lookback: int, parse: DateParse, rows: seq<KeyView>, fate: nat -> Append)
      returns (r: Option<Result>)
      modifies this`announced, this`sent
      ensures (State(), r.Some?) == Sweep(old(State()), now, lookback, parse, rows, fate)
      ensures old(sent) <= sent
      ensures r.Some? ==>
                var told := sent[|old(sent)|..];
                r.value == Result(|rows|, Count(told, Expiring), Count(told, Expired), false)
    {
      var ok, live, expiring, expired := Announce(now, lookback, parse, rows, fate);
      if !ok {
        return None;
      }
      ghost var full, told := announced, State();
      var left := announced.Keys;
      while left != {}
        invariant left <= full.Keys && sent == told.sent
        invariant announced == map slot | slot in full && (slot in left || slot in live) :: full[slot]
      {
        var slot :| slot in left;
        if slot !in live {
          announced := announced - {slot};
        }
        left := left - {slot};
      }
      assert State() == Prune(told, rows, now, lookback, parse);
      return Some(Result(|rows|, expiring, expired, false));
    }

    /** A sweep: skipped while one is in flight, or while another replica holds the lock. */
    method SweepOnce(
      now: int, window: int, lookback: int, parse: DateParse, views: seq<KeyView>, fate: nat -> Append, locked: bool)
      returns (r: Option<Result>)
      modifies this
      ensures inFlight == old(inFlight)
      ensures old(inFlight) || !locked ==> r == Some(SKIPPED) && State() == old(State())
      ensures !old(inFlight) && locked ==>
                (State(), r.Some?) == SweepOf(Setup(window, lookback, parse), old(State()), Tick(now, views, fate))
    {
      if inFlight {
        return Some(SKIPPED);
      }
      inFlight := true;
      if locked {
        r := Run(now, lookback, parse, ListExpiring(views, now + window, parse), fate);
      } else {
        r := Some(SKIPPED);
      }
      inFlight := false;
    }
  }

  /** A notice that throws ends the sweep where it is. */
  lemma {:induction false} SendRowsStop(
    m: Memo, now: int, lookback: int, parse: DateParse, rows: seq<KeyView>, fate: nat -> Append, i: nat)
    requires i < |rows|
    requires var r := SendRows(m, now, lookback, parse, rows[..i], fate);
             r.1 && RowDue(r.0, now, lookback, parse, rows[i]).Some? && fate(|r.0.sent|) != Written
    ensures var r := SendRows(m, now, lookback, parse, rows[..i], fate);
            var d := RowDue(r.0, now, lookback, parse, rows[i]).value;
            SendRows(m, now, lookback, parse, rows, fate) == Attempt(r.0, d, fate(|r.0.sent|))
    decreases |rows|
  {
    var init := rows[..|rows| - 1];
    if i == |init| {
      assert init == rows[..i];
    } else {
      assert init[..i] == rows[..i];
      SendRowsStop(m, now, lookback, parse, init, fate, i);
    }
  }
}
