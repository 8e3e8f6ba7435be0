/** The point-in-time portal: a clock that only moves forward, raw history and bars up to that clock. */
module DataPortals {
  import opened Basics
  import opened TickStore
  import opened BarBuilder

  datatype BarType = Second | Minute | Hour | Day | TickCount | VolumeCount

  datatype BarFrequency = BarFrequency(kind: BarType, count: nat)

  const SECOND: int := 1_000_000_000

  function BarDuration(f: BarFrequency): int {
    match f.kind
    case Second => f.count * SECOND
    case Minute => f.count * (60 * SECOND)
    case Hour => f.count * (3600 * SECOND)
    case Day => f.count * (86400 * SECOND)
    case _ => f.count * SECOND
  }

  lemma DurationPositive(f: BarFrequency)
    requires f.count > 0
    ensures BarDuration(f) > 0
  {}

  /** Bar lengths in nanoseconds; bars by ticks or by volume are counted in seconds too. */
  lemma DurationInNanoseconds(n: nat)
    ensures BarDuration(BarFrequency(Second, n)) == n * 1_000_000_000
    ensures BarDuration(BarFrequency(Minute, n)) == 60 * BarDuration(BarFrequency(Second, n))
    ensures BarDuration(BarFrequency(Hour, n)) == 60 * BarDuration(BarFrequency(Minute, n))
    ensures BarDuration(BarFrequency(Day, n)) == 24 * BarDuration(BarFrequency(Hour, n))
    ensures BarDuration(BarFrequency(TickCount, n)) == BarDuration(BarFrequency(Second, n))
    ensures BarDuration(BarFrequency(VolumeCount, n)) == BarDuration(BarFrequency(Second, n))
  {}

  /** The slice of the store that lies in the span, with everything before it earlier and everything behind it
      later. */
  ghost predicate IsSpan(ticks: seq<Tick>, r: seq<Tick>, from: Timestamp, to: Timestamp) {
    exists a, b :: IsSlice(ticks, r, from, to, a, b)
  }

  ghost predicate IsSlice(ticks: seq<Tick>, r: seq<Tick>, from: Timestamp, to: Timestamp, a: int, b: int) {
    && 0 <= a <= b <= |ticks| && r == ticks[a..b]
    && (forall i :: 0 <= i < a ==> ticks[i].recvTs < from)
    && (forall i :: a <= i < b ==> from <= ticks[i].recvTs <= to)
    && (forall i :: b <= i < |ticks| ==> ticks[i].recvTs > to)
  }

  /** The last n bars over the ticks of n + 1 bar lengths up to the clock. */
  function HistoryBarsOf(ticks: seq<Tick>, now: Timestamp, dur: int, n: nat): seq<Bar>
    requires dur > 0
  {
    LastN(AllBars(Between(ticks, now - (n + 1) * dur, now), dur), n)
  }

  /** No lookahead: two stores that agree on the ticks received by now have the same history and the
      same bars, whatever comes later. */
  lemma NoLookahead(a: seq<Tick>, b: seq<Tick>, now: Timestamp, lookback: int, dur: int, n: nat)
    requires UpTo(a, now) == UpTo(b, now) && dur > 0
    ensures Between(a, now - lookback, now) == Between(b, now - lookback, now)
    ensures HistoryBarsOf(a, now, dur, n) == HistoryBarsOf(b, now, dur, n)
  {
    hide Between, UpTo, AllBars, LastN;
    var span := (n + 1) * dur;
    BetweenOfUpTo(a, now - lookback, now);
    BetweenOfUpTo(b, now - lookback, now);
    BetweenOfUpTo(a, now - span, now);
    BetweenOfUpTo(b, now - span, now);
  }

  // ----- Which of the bars are whole

  lemma {:induction false} GroupOfBetween(ticks: seq<Tick>, from: Timestamp, to: Timestamp, dur: int, k: int)
    requires dur > 0 && from <= k * dur
    ensures Group(Between(ticks, from, to), dur, k) == Group(UpTo(ticks, to), dur, k)
    decreases |ticks|
  {
    hide Bucket;
    if ticks != [] {
      var n := |ticks| - 1;
      GroupOfBetween(ticks[..n], from, to, dur, k);
      GroupMore(Between(ticks[..n], from, to), ticks[n], dur, k);
      GroupMore(UpTo(ticks[..n], to), ticks[n], dur, k);
      InsideBucket(ticks[n], dur, k);
      assert Between(ticks[..n], from, to) + [] == Between(ticks[..n], from, to);
      assert UpTo(ticks[..n], to) + [] == UpTo(ticks[..n], to);
    }
  }

  lemma InsideBucket(t: Tick, dur: int, k: int)
    requires dur > 0
    ensures Bucket(t, dur) == k ==> t.recvTs >= k * dur
  {
    assert t.recvTs == dur * (t.recvTs / dur) + t.recvTs % dur;
  }

  /** A bucket that begins inside the lookback has the same bar as over the whole store up to now; only
      the bucket the lookback cuts into may have a shorter one. */
  lemma BarsInsideAreWhole(ticks: seq<Tick>, now: Timestamp, dur: int, n: nat, k: int)
    requires dur > 0 && now - (n + 1) * dur <= k * dur
    ensures Group(Between(ticks, now - (n + 1) * dur, now), dur, k) == Group(UpTo(ticks, now), dur, k)
  {
    GroupOfBetween(ticks, now - (n + 1) * dur, now, dur, k);
  }

  // ----- Which of the returned bars have ended

  /** Of the bars returned, all have ended exactly when nothing was found, the newest tick lies in an
      earlier bar than the clock, or the clock stands on the last instant of its bar. */
  lemma ReturnedBarsClosedExactlyWhen(ticks: seq<Tick>, now: Timestamp, dur: int, n: nat)
    requires Past(ticks) && dur > 0 && n > 0 && now >= 0
    ensures var s := Between(ticks, now - (n + 1) * dur, now);
            (forall b :: b in HistoryBarsOf(ticks, now, dur, n) ==> b.closeTs <= now) <==>
            s == [] || Bucket(s[|s| - 1], dur) < now / dur || now % dur == dur - 1
  {
    hide AllBars, Between, UpTo, Past, Bucket, LastN;
    BarsOfSpanClosed(ticks, now - (n + 1) * dur, now, dur, n);
  }

  lemma BarsOfSpanClosed(ticks: seq<Tick>, from: Timestamp, now: Timestamp, dur: int, n: nat)
    requires Past(ticks) && dur > 0 && n > 0 && now >= 0
    ensures var s := Between(ticks, from, now);
            (forall b :: b in LastN(AllBars(s, dur), n) ==> b.closeTs <= now) <==>
            s == [] || Bucket(s[|s| - 1], dur) < now / dur || now % dur == dur - 1
  {
    hide AllBars, Between, UpTo, Past, Bucket, OpenOf, LastN;
    var s := Between(ticks, from, now);
    PastBetween(ticks, from, now);
    if s == [] {
      NoBars(dur, n);
    } else {
      OnlyTheNewestBarIsOpen(s, dur, now);
      LastNClosed(AllBars(s, dur), n, now);
      LastIsNewest(s);
      NewestIsPast(s, now);
      BarEndsExactlyWhen(s[|s| - 1], dur, now);
    }
  }

  lemma LastNClosed(bars: seq<Bar>, n: nat, now: Timestamp)
    requires n > 0 && bars != [] && forall i :: 0 <= i < |bars| - 1 ==> bars[i].closeTs <= now
    ensures (forall b :: b in LastN(bars, n) ==> b.closeTs <= now) <==> bars[|bars| - 1].closeTs <= now
  {
    var kept := LastN(bars, n);
    var skipped := |bars| - |kept|;
    assert kept[|kept| - 1] == bars[|bars| - 1];
    assert kept == bars[skipped..];
    hide LastN;
    forall b | b in kept ensures b == bars[|bars| - 1] || b.closeTs <= now {
      var i :| 0 <= i < |kept| && kept[i] == b;
      assert b == bars[skipped + i];
    }
  }

  /** The bar of a tick has ended by now exactly when the clock is in a later bar or at its last instant. */
  lemma BarEndsExactlyWhen(t: Tick, dur: int, now: Timestamp)
    requires dur > 0 && 0 <= t.recvTs <= now
    ensures now >= OpenOf(Bucket(t, dur), dur) + dur - 1 <==> Bucket(t, dur) < now / dur || now % dur == dur - 1
  {
    var k, q := t.recvTs / dur, now / dur;
    DivMonotone(t.recvTs, now, dur);
    assert now == dur * q + now % dur && dur * q == q * dur;
    if k < q {
      ProductGrows(k + 1, q, dur);
      assert (k + 1) * dur == k * dur + dur;
    }
  }

  /** The program's promise about returned bars fails on one tick at time zero, asked for at time zero in
      bars of one second: the bar returned ends in the future. */
  lemma OpenBarReturned()
    ensures var ticks := [Tick(0, 1, 100, 100, 5)];
            var bars := HistoryBarsOf(ticks, 0, BarDuration(BarFrequency(Second, 1)), 1);
            Past(ticks) && exists b :: b in bars && b.closeTs > 0
  {
    var t := Tick(0, 1, 100, 100, 5);
    var dur := BarDuration(BarFrequency(Second, 1));
    ReturnedBarsClosedExactlyWhen([t], 0, dur, 1);
    BetweenMore([], t, 0 - 2 * dur, 0);
    assert [] + [t] == [t];
    assert Between([], 0 - 2 * dur, 0) == [];
    assert (1 + 1) * dur == 2 * dur;
  }

  class DataPortal {
    var currentTs: Timestamp
    var stores: map<nat, seq<Tick>>

    ghost predicate Valid()
      reads this
    {
      forall id :: id in stores ==> Past(stores[id])
    }

    constructor (startTs: Timestamp)
      ensures Valid() && currentTs == startTs && stores == map[]
    {
      currentTs := startTs;
      stores := map[];
    }

    method RegisterStore(id: nat, ticks: seq<Tick>) returns (ok: bool)
      requires Valid() && Past(ticks)
      modifies this`stores
      ensures Valid() && ok == (id !in old(stores))
      ensures stores == if ok then old(stores)[id := ticks] else old(stores)
    {
      if id in stores { return false; }
      stores := stores[id := ticks];
      return true;
    }

    /** Time never goes backwards. */
    method AdvanceTo(ts: Timestamp)
      modifies this`currentTs
      ensures currentTs == if ts > old(currentTs) then ts else old(currentTs)
    {
      if ts > currentTs { currentTs := ts; }
    }

    method CurrentTick(id: nat) returns (r: Option<Tick>)
      requires Valid()
      ensures r == if id !in stores || UpTo(stores[id], currentTs) == [] then None
                   else Some(UpTo(stores[id], currentTs)[|UpTo(stores[id], currentTs)| - 1])
    {
      if id !in stores { return None; }
      r := LastAtOrBefore(stores[id], currentTs);
    }

    /** Two binary searches cut out the ticks of the lookback. */
    method History(id: nat, lookback: int) returns (r: seq<Tick>)
      requires Valid() && lookback >= 0
      ensures r == if id in stores then Between(stores[id], currentTs - lookback, currentTs) else []
      ensures id in stores ==> IsSpan(stores[id], r, currentTs - lookback, currentTs)
    {
      if id !in stores { return []; }
      var ticks := stores[id];
      var from := currentTs - lookback;
      var a := LowerBound(ticks, from);
      var b := LowerBound(ticks, currentTs + 1);
      Cut(ticks, a, b, from, currentTs);
      assert IsSlice(ticks, ticks[a..b], from, currentTs, a, b);
      return ticks[a..b];
    }

    method HistoryBars(id: nat, freq: BarFrequency, n: nat) returns (bars: seq<Bar>)
      requires Valid() && freq.count > 0
      ensures BarDuration(freq) > 0
      ensures bars == if id in stores then HistoryBarsOf(stores[id], currentTs, BarDuration(freq), n) else []
      ensures id in stores ==>
                var span := Between(stores[id], currentTs - (n + 1) * BarDuration(freq), currentTs);
                forall i :: 0 <= i < |bars| ==> OnItsTicks(bars[i], span, BarDuration(freq))
    {
      hide AllBars, LastN, Past, BarDuration, UpTo, Between, OnItsTicks;
      DurationPositive(freq);
      var dur := BarDuration(freq);
      LookbackPositive(n, dur);
      var ticks := History(id, (n + 1) * dur);
      if id in stores {
        PastBetween(stores[id], currentTs - (n + 1) * dur, currentTs);
      } else {
        NothingPast();
      }
      NoBars(dur, n);
      bars := BuildBars(ticks, dur, n, currentTs);
    }
  }

  lemma NothingPast()
    ensures Past([]) && forall to :: UpTo([], to) == []
  {}

  lemma LookbackPositive(n: nat, dur: int)
    requires dur > 0
    ensures (n + 1) * dur >= 0
  {}

  lemma Cut(ticks: seq<Tick>, a: nat, b: nat, from: Timestamp, to: Timestamp)
    requires from <= to && a <= |ticks| && b <= |ticks|
    requires forall i :: 0 <= i < a ==> ticks[i].recvTs < from
    requires forall i :: a <= i < |ticks| ==> ticks[i].recvTs >= from
    requires forall i :: 0 <= i < b ==> ticks[i].recvTs < to + 1
    requires forall i :: b <= i < |ticks| ==> ticks[i].recvTs >= to + 1
    ensures a <= b && Between(ticks, from, to) == ticks[a..b]
  {
    assert b < |ticks| ==> ticks[b].recvTs >= to + 1;
    BetweenIsSlice(ticks, a, b, from, to);
  }

  lemma PastMore(s: seq<Tick>, t: Tick, to: Timestamp)
    requires Past(s) && UpTo(s, to) == s && 0 <= t.recvTs <= to
    requires s != [] ==> s[|s| - 1].recvTs <= t.recvTs
    ensures Past(s + [t]) && UpTo(s + [t], to) == s + [t]
  {
    assert (s + [t])[..|s|] == s;
  }

  /** The ticks of a span are in time order and none is in the future. */
  lemma {:induction false} PastBetween(ticks: seq<Tick>, from: Timestamp, to: Timestamp)
    requires Past(ticks)
    ensures var s := Between(ticks, from, to);
            && Past(s) && UpTo(s, to) == s
            && (s != [] ==> s[|s| - 1].recvTs <= ticks[|ticks| - 1].recvTs)
    decreases |ticks|
  {
    hide Past, UpTo;
    if ticks == [] {
      NothingPast();
    } else {
      var n := |ticks| - 1;
      PastPrefix(ticks, n);
      PastBetween(ticks[..n], from, to);
      LastIsNewest(ticks);
      var s := Between(ticks[..n], from, to);
      assert s + [] == s;
      if from <= ticks[n].recvTs <= to {
        PastMore(s, ticks[n], to);
      }
    }
  }

  lemma LastIsNewest(ticks: seq<Tick>)
    requires Past(ticks) && ticks != []
    ensures ticks[|ticks| - 1].recvTs >= 0
    ensures |ticks| > 1 ==> ticks[..|ticks| - 1][|ticks| - 2].recvTs <= ticks[|ticks| - 1].recvTs
  {}
}
