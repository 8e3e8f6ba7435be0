/** Bars: grouping ticks by the bucket of their time, and the one-pass aggregation that does the same. */
module BarBuilder {
  import opened Basics
  import opened TickStore

  datatype Bar = Bar(
    recvTs: Timestamp,
    openTs: Timestamp,
    closeTs: Timestamp,
    symbolId: nat,
    open: Price,
    high: Price,
    low: Price,
    close: Price,
    vwap: Price,
    volume: nat,
    tradeCount: nat)

  // ----- The specification: group by bucket

  function Bucket(t: Tick, dur: int): int
    requires dur > 0
  {
    t.recvTs / dur
  }

  /** The ticks of one bucket in their order. */
  function Group(ticks: seq<Tick>, dur: int, k: int): seq<Tick>
    requires dur > 0
    decreases |ticks|
  {
    if ticks == [] then []
    else
      var n := |ticks| - 1;
      Group(ticks[..n], dur, k) + if Bucket(ticks[n], dur) == k then [ticks[n]] else []
  }

  /** The buckets in which there are ticks, in order of first appearance. */
  function Buckets(ticks: seq<Tick>, dur: int): seq<int>
    requires dur > 0
    decreases |ticks|
  {
    if ticks == [] then []
    else
      var n := |ticks| - 1;
      var ks := Buckets(ticks[..n], dur);
      if Bucket(ticks[n], dur) in ks then ks else ks + [Bucket(ticks[n], dur)]
  }

  /** The price a tick counts with: the last trade, or the bid before any trade. */
  function TradePrice(t: Tick): Price {
    if t.lastPrice > 0 then t.lastPrice else t.bidPrice
  }

  function Highest(g: seq<Tick>): (h: Price)
    requires g != []
    ensures forall i :: 0 <= i < |g| ==> TradePrice(g[i]) <= h
    ensures exists i :: 0 <= i < |g| && TradePrice(g[i]) == h
    decreases |g|
  {
    var n := |g| - 1;
    if n == 0 then TradePrice(g[0])
    else
      var h := Highest(g[..n]);
      var i :| 0 <= i < |g[..n]| && TradePrice(g[..n][i]) == h;
      assert TradePrice(g[i]) == h;
      assert forall j :: 0 <= j < n ==> g[j] == g[..n][j];
      if h < TradePrice(g[n]) then TradePrice(g[n]) else h
  }

  function Lowest(g: seq<Tick>): (l: Price)
    requires g != []
    ensures forall i :: 0 <= i < |g| ==> l <= TradePrice(g[i])
    ensures exists i :: 0 <= i < |g| && TradePrice(g[i]) == l
    decreases |g|
  {
    var n := |g| - 1;
    if n == 0 then TradePrice(g[0])
    else
      var l := Lowest(g[..n]);
      var i :| 0 <= i < |g[..n]| && TradePrice(g[..n][i]) == l;
      assert TradePrice(g[i]) == l;
      assert forall j :: 0 <= j < n ==> g[j] == g[..n][j];
      if TradePrice(g[n]) < l then TradePrice(g[n]) else l
  }

  function Turnover(g: seq<Tick>): int
    decreases |g|
  {
    if g == [] then 0 else Turnover(g[..|g| - 1]) + TradePrice(g[|g| - 1]) * g[|g| - 1].lastSize
  }

  function Volume(g: seq<Tick>): nat
    decreases |g|
  {
    if g == [] then 0 else Volume(g[..|g| - 1]) + g[|g| - 1].lastSize
  }

  /** Where a bucket begins. */
  function OpenOf(k: int, dur: int): int { k * dur }

  /** A bar in progress: its average and volume are filled in when it ends. */
  function Partial(g: seq<Tick>, dur: int, k: int): Bar
    requires g != [] && dur > 0
  {
    Bar(OpenOf(k, dur) + dur - 1, OpenOf(k, dur), OpenOf(k, dur) + dur - 1, g[0].symbolId, TradePrice(g[0]), Highest(g), Lowest(g),
        TradePrice(g[|g| - 1]), 0, 0, |g|)
  }

  /** The bar of a bucket's ticks. */
  function BarOf(g: seq<Tick>, dur: int, k: int): Bar
    requires g != [] && dur > 0
  {
    var p := Partial(g, dur, k);
    p.(vwap := if Volume(g) > 0 then TruncDiv(Turnover(g), Volume(g)) else p.close, volume := Volume(g))
  }

  lemma {:induction false} GroupNonEmpty(ticks: seq<Tick>, dur: int, k: int)
    requires dur > 0
    ensures Group(ticks, dur, k) != [] <==> k in Buckets(ticks, dur)
    decreases |ticks|
  {
    if ticks != [] {
      GroupNonEmpty(ticks[..|ticks| - 1], dur, k);
    }
  }

  /** The bars of the first m buckets. */
  function Bars(ticks: seq<Tick>, dur: int, m: nat): (bars: seq<Bar>)
    requires dur > 0 && m <= |Buckets(ticks, dur)|
    ensures |bars| == m
    decreases m
  {
    if m == 0 then []
    else
      var k := Buckets(ticks, dur)[m - 1];
      GroupNonEmpty(ticks, dur, k);
      Bars(ticks, dur, m - 1) + [BarOf(Group(ticks, dur, k), dur, k)]
  }

  function AllBars(ticks: seq<Tick>, dur: int): seq<Bar>
    requires dur > 0
  {
    Bars(ticks, dur, |Buckets(ticks, dur)|)
  }

  // ----- How the specification grows tick by tick

  ghost predicate Past(ticks: seq<Tick>) {
    InTimeOrder(ticks) && forall i :: 0 <= i < |ticks| ==> ticks[i].recvTs >= 0
  }

  lemma DivMonotone(a: int, b: int, d: int)
    requires 0 <= a <= b && d > 0
    ensures a / d <= b / d
  {
    var q, p := a / d, b / d;
    assert a == d * q + a % d && b == d * p + b % d;
    assert d * (q - p) == d * q - d * p;
    assert q - p >= 1 ==> d * (q - p) >= d;
  }

  lemma PastTheEnd(a: int, b: int, d: int)
    requires 0 <= a <= b && d > 0
    ensures b >= a / d * d + d <==> b / d > a / d
    ensures a / d <= b / d
  {
    DivMonotone(a, b, d);
    var q, p := a / d, b / d;
    assert b == d * p + b % d;
    assert d * (p - q) == d * p - q * d;
    assert p - q >= 1 ==> d * (p - q) >= d;
  }

  /** A tick opens a new bucket exactly when it is at or past the end of the current one. */
  lemma OpensBucket(last: Tick, t: Tick, dur: int)
    requires dur > 0 && 0 <= last.recvTs <= t.recvTs
    ensures Bucket(last, dur) <= Bucket(t, dur)
    ensures t.recvTs >= OpenOf(Bucket(last, dur), dur) + dur <==> Bucket(t, dur) > Bucket(last, dur)
  {
    PastTheEnd(last.recvTs, t.recvTs, dur);
  }

  /** In time order the buckets increase and the newest is that of the last tick. */
  lemma {:induction false} BucketsIncrease(ticks: seq<Tick>, dur: int)
    requires Past(ticks) && dur > 0
    ensures var ks := Buckets(ticks, dur);
            && (forall i, j :: 0 <= i < j < |ks| ==> ks[i] < ks[j])
            && (ks == [] <==> ticks == [])
            && (ks != [] ==> ks[|ks| - 1] == Bucket(ticks[|ticks| - 1], dur))
    decreases |ticks|
  {
    if ticks != [] {
      var n := |ticks| - 1;
      BucketsIncrease(ticks[..n], dur);
      if n > 0 {
        DivMonotone(ticks[n - 1].recvTs, ticks[n].recvTs, dur);
      }
    }
  }

  lemma GroupMore(ticks: seq<Tick>, t: Tick, dur: int, k: int)
    requires dur > 0
    ensures Group(ticks + [t], dur, k) == Group(ticks, dur, k) + if Bucket(t, dur) == k then [t] else []
    ensures Bucket(t, dur) != k ==> Group(ticks + [t], dur, k) == Group(ticks, dur, k)
  {
    assert (ticks + [t])[..|ticks|] == ticks;
  }

  lemma BucketsMore(ticks: seq<Tick>, t: Tick, dur: int)
    requires dur > 0
    ensures var ks := Buckets(ticks, dur);
            Buckets(ticks + [t], dur) == if Bucket(t, dur) in ks then ks else ks + [Bucket(t, dur)]
  {
    assert (ticks + [t])[..|ticks|] == ticks;
  }

  /** A tick leaves the bars of the other buckets alone. */
  lemma {:induction false} BarsStable(ticks: seq<Tick>, t: Tick, dur: int, m: nat)
    requires dur > 0 && m <= |Buckets(ticks, dur)|
    requires forall j :: 0 <= j < m ==> Buckets(ticks, dur)[j] != Bucket(t, dur)
    ensures m <= |Buckets(ticks + [t], dur)| && Bars(ticks + [t], dur, m) == Bars(ticks, dur, m)
    decreases m
  {
    hide BarOf, Group, Buckets, Bucket;
    BucketsMore(ticks, t, dur);
    if m > 0 {
      BarsStable(ticks, t, dur, m - 1);
      GroupMore(ticks, t, dur, Buckets(ticks, dur)[m - 1]);
    }
  }

  /** A tick in the current bucket extends its group; one in a later bucket starts a group of its own
      and completes the bars before it. */
  lemma NextTick(ticks: seq<Tick>, t: Tick, dur: int)
    requires dur > 0 && Past(ticks + [t]) && ticks != []
    ensures var ks, ks1 := Buckets(ticks, dur), Buckets(ticks + [t], dur);
            && ks != [] && ks[|ks| - 1] <= Bucket(t, dur)
            && if Bucket(t, dur) == ks[|ks| - 1] then
                 && ks1 == ks && Bars(ticks + [t], dur, |ks| - 1) == Bars(ticks, dur, |ks| - 1)
                 && Group(ticks + [t], dur, Bucket(t, dur)) == Group(ticks, dur, Bucket(t, dur)) + [t]
               else
                 && ks1 == ks + [Bucket(t, dur)] && Bars(ticks + [t], dur, |ks|) == Bars(ticks, dur, |ks|)
                 && Group(ticks + [t], dur, Bucket(t, dur)) == [t]
  {
    hide Bars, Group, Buckets, Bucket, Past, OpenOf;
    LaterTick(ticks, t);
    BucketsIncrease(ticks, dur);
    BucketsMore(ticks, t, dur);
    GroupMore(ticks, t, dur, Bucket(t, dur));
    OpensBucket(ticks[|ticks| - 1], t, dur);
    var ks := Buckets(ticks, dur);
    GroupNonEmpty(ticks, dur, Bucket(t, dur));
    if Bucket(t, dur) == ks[|ks| - 1] {
      BarsStable(ticks, t, dur, |ks| - 1);
    } else {
      BarsStable(ticks, t, dur, |ks|);
    }
  }

  lemma FirstTick(t: Tick, dur: int)
    requires dur > 0
    ensures Buckets([t], dur) == [Bucket(t, dur)] && Group([t], dur, Bucket(t, dur)) == [t]
    ensures Bars([t], dur, 0) == []
  {
    assert [t][..0] == [];
    assert Buckets([], dur) == [] && Group([], dur, Bucket(t, dur)) == [];
  }

  lemma PartialMore(g: seq<Tick>, t: Tick, dur: int, k: int)
    requires g != [] && dur > 0
    ensures var p, px := Partial(g, dur, k), TradePrice(t);
            Partial(g + [t], dur, k) ==
              p.(high := if p.high < px then px else p.high, low := if px < p.low then px else p.low, close := px,
                 tradeCount := p.tradeCount + 1)
    ensures Turnover(g + [t]) == Turnover(g) + TradePrice(t) * t.lastSize && Volume(g + [t]) == Volume(g) + t.lastSize
  {
    hide TradePrice;
    assert (g + [t])[..|g|] == g;
  }

  lemma PartialOne(t: Tick, dur: int, k: int)
    requires dur > 0
    ensures Partial([t], dur, k) ==
              Bar(OpenOf(k, dur) + dur - 1, OpenOf(k, dur), OpenOf(k, dur) + dur - 1, t.symbolId, TradePrice(t), TradePrice(t), TradePrice(t),
                  TradePrice(t), 0, 0, 1)
    ensures Turnover([t]) == TradePrice(t) * t.lastSize && Volume([t]) == t.lastSize
  {
    assert [t][..0] == [];
    assert Turnover([]) == 0 && Volume([]) == 0;
  }

  // ----- The one pass

  /** What the pass holds after the ticks p, all of one bucket or more. */
  ghost predicate Holds(p: seq<Tick>, dur: int, n: nat, bars: seq<Bar>, barOpen: int, cur: Bar, sumPv: int, vol: nat)
    requires dur > 0
  {
    p != [] && Buckets(p, dur) != [] &&
    var m := |Buckets(p, dur)| - 1;
    var k := Buckets(p, dur)[m];
    var g := Group(p, dur, k);
    && g != [] && barOpen == OpenOf(k, dur) && cur == Partial(g, dur, k)
    && sumPv == Turnover(g) && vol == Volume(g)
    && bars == LastN(Bars(p, dur, m), n)
  }

  lemma HoldsSame(p: seq<Tick>, t: Tick, dur: int, n: nat, bars: seq<Bar>, barOpen: int, cur: Bar, sumPv: int, vol: nat)
    requires dur > 0 && Past(p + [t]) && Holds(p, dur, n, bars, barOpen, cur, sumPv, vol)
    requires t.recvTs < barOpen + dur
    ensures var px := TradePrice(t);
            Holds(p + [t], dur, n, bars, barOpen,
                  cur.(high := if cur.high < px then px else cur.high, low := if px < cur.low then px else cur.low, close := px,
                       tradeCount := cur.tradeCount + 1),
                  sumPv + px * t.lastSize, vol + t.lastSize)
  {
    hide Bars, Group, Buckets, Bucket, OpenOf, Partial, Turnover, Volume, TradePrice, LastN, Past;
    LaterTick(p, t);
    NextTick(p, t, dur);
    BucketOfLast(p, dur);
    OpensBucket(p[|p| - 1], t, dur);
    PartialMore(Group(p, dur, Bucket(t, dur)), t, dur, Bucket(t, dur));
  }

  lemma BucketOfLast(p: seq<Tick>, dur: int)
    requires dur > 0 && Past(p) && p != []
    ensures Buckets(p, dur) != [] && Buckets(p, dur)[|Buckets(p, dur)| - 1] == Bucket(p[|p| - 1], dur)
  {
    BucketsIncrease(p, dur);
  }

  lemma LaterTick(p: seq<Tick>, t: Tick)
    requires Past(p + [t]) && p != []
    ensures Past(p) && 0 <= p[|p| - 1].recvTs <= t.recvTs
  {
    assert forall i :: 0 <= i < |p| ==> (p + [t])[i] == p[i];
    assert (p + [t])[|p|] == t;
  }

  /** Ending the bar in progress completes the newest bucket. */
  lemma HoldsEnds(p: seq<Tick>, dur: int, n: nat, bars: seq<Bar>, barOpen: int, cur: Bar, sumPv: int, vol: nat)
    requires dur > 0 && Holds(p, dur, n, bars, barOpen, cur, sumPv, vol)
    ensures var kept := bars + [cur.(vwap := if vol > 0 then TruncDiv(sumPv, vol) else cur.close, volume := vol)];
            (if |kept| > n then kept[1..] else kept) == LastN(AllBars(p, dur), n)
  {
    hide Group, Buckets, Partial, OpenOf, Turnover, Volume, TradePrice, TruncDiv;
    var m := |Buckets(p, dur)| - 1;
    var k := Buckets(p, dur)[m];
    LastMore(Bars(p, dur, m), BarOf(Group(p, dur, k), dur, k), n);
  }

  lemma HoldsOpens(p: seq<Tick>, t: Tick, dur: int, n: nat, barOpen: int)
    requires dur > 0 && Past(p + [t]) && p != []
    requires barOpen == OpenOf(Bucket(p[|p| - 1], dur), dur) && t.recvTs >= barOpen + dur
    ensures var px, at := TradePrice(t), OpenOf(Bucket(t, dur), dur);
            Holds(p + [t], dur, n, LastN(AllBars(p, dur), n), at,
                  Bar(at + dur - 1, at, at + dur - 1, t.symbolId, px, px, px, px, 0, 0, 1), px * t.lastSize, t.lastSize)
  {
    hide Bars, Group, Buckets, Bucket, OpenOf, Partial, Turnover, Volume, TradePrice, LastN, Past;
    LaterTick(p, t);
    NextTick(p, t, dur);
    BucketOfLast(p, dur);
    OpensBucket(p[|p| - 1], t, dur);
    PartialOne(t, dur, Bucket(t, dur));
  }

  lemma HoldsFirst(t: Tick, dur: int, n: nat)
    requires dur > 0
    ensures var px, at := TradePrice(t), OpenOf(Bucket(t, dur), dur);
            Holds([t], dur, n, [], at, Bar(at + dur - 1, at, at + dur - 1, t.symbolId, px, px, px, px, 0, 0, 1),
                  px * t.lastSize, t.lastSize)
  {
    hide Bars, Group, Buckets, Bucket, OpenOf, Partial, Turnover, Volume, TradePrice;
    FirstTick(t, dur);
    PartialOne(t, dur, Bucket(t, dur));
  }

  /** Where the bar in progress begins. */
  lemma HoldsOpen(p: seq<Tick>, dur: int, n: nat, bars: seq<Bar>, barOpen: int, cur: Bar, sumPv: int, vol: nat)
    requires dur > 0 && Past(p) && Holds(p, dur, n, bars, barOpen, cur, sumPv, vol)
    ensures p != [] && barOpen == OpenOf(Bucket(p[|p| - 1], dur), dur)
  {
    hide Bars, Group, Buckets, Bucket, OpenOf, Partial, Turnover, Volume, Past, LastN;
    BucketOfLast(p, dur);
  }

  lemma PastPrefix(ticks: seq<Tick>, i: nat)
    requires Past(ticks) && i <= |ticks|
    ensures Past(ticks[..i])
  {}

  method Finalise(bars: seq<Bar>, cur: Bar, sumPv: int, vol: nat, n: nat) returns (r: seq<Bar>)
    ensures var kept := bars + [cur.(vwap := if vol > 0 then TruncDiv(sumPv, vol) else cur.close, volume := vol)];
            r == if |kept| > n then kept[1..] else kept
  {
    r := bars + [cur.(vwap := if vol > 0 then TruncDiv(sumPv, vol) else cur.close, volume := vol)];
    if |r| > n {
      r := r[1..];
    }
  }

  /** The one-pass aggregation is the last n bars of the group-by of the ticks that are not in the future. */
  method BuildBars(ticks: seq<Tick>, dur: int, n: nat, now: Timestamp) returns (bars: seq<Bar>)
    requires dur > 0 && Past(ticks)
    ensures bars == LastN(AllBars(UpTo(ticks, now), dur), n)
    ensures forall i :: 0 <= i < |bars| ==> OnItsTicks(bars[i], UpTo(ticks, now), dur)
  {
    hide Bucket, OpenOf, Holds, AllBars, LastN, Past, TradePrice, TruncDiv, OnItsTicks;
    PastUpTo(ticks, now);
    LastBarsAreOnTheirTicks(UpTo(ticks, now), dur, n);
    bars := [];
    if ticks == [] {
      NoBars(dur, n);
      return;
    }
    var barOpen := OpenOf(Bucket(ticks[0], dur), dur);
    var cur := Bar(0, 0, 0, 0, 0, 0, 0, 0, 0, 0, 0);
    var inBar := false;
    var sumPv, vol: nat := 0, 0;
    var i: nat := 0;
    PastPrefix(ticks, |ticks|);
    while i < |ticks| && ticks[i].recvTs <= now
      invariant i <= |ticks| && inBar == (i > 0)
      invariant forall j :: 0 <= j < i ==> ticks[j].recvTs <= now
      invariant inBar ==> Holds(ticks[..i], dur, n, bars, barOpen, cur, sumPv, vol)
      invariant !inBar ==> bars == [] && barOpen == OpenOf(Bucket(ticks[0], dur), dur) && sumPv == 0 && vol == 0
    {
      var tick := ticks[i];
      var px := TradePrice(tick);
      PastPrefix(ticks, i);
      PastPrefix(ticks, i + 1);
      assert ticks[..i + 1] == ticks[..i] + [tick];
      if inBar {
        HoldsOpen(ticks[..i], dur, n, bars, barOpen, cur, sumPv, vol);
        if tick.recvTs >= barOpen + dur {
          HoldsEnds(ticks[..i], dur, n, bars, barOpen, cur, sumPv, vol);
          HoldsOpens(ticks[..i], tick, dur, n, barOpen);
        } else {
          HoldsSame(ticks[..i], tick, dur, n, bars, barOpen, cur, sumPv, vol);
        }
      } else {
        FirstInside(tick, dur);
        HoldsFirst(tick, dur, n);
        assert ticks[..i + 1] == [tick];
      }
      if tick.recvTs >= barOpen + dur {
        if inBar {
          bars := Finalise(bars, cur, sumPv, vol, n);
          inBar, sumPv, vol := false, 0, 0;
        }
        barOpen := OpenOf(Bucket(tick, dur), dur);
      }
      if !inBar {
        cur := Bar(barOpen + dur - 1, barOpen, barOpen + dur - 1, tick.symbolId, px, px, px, px, 0, 0, 0);
        inBar := true;
      } else {
        cur := cur.(high := if cur.high < px then px else cur.high, low := if px < cur.low then px else cur.low, close := px);
      }
      NoSize(px, tick.lastSize);
      if tick.lastSize > 0 {
        sumPv := sumPv + px * tick.lastSize;
        vol := vol + tick.lastSize;
      }
      cur := cur.(tradeCount := cur.tradeCount + 1);
      i := i + 1;
    }
    PastEnds(ticks, i, now);
    if inBar {
      HoldsEnds(ticks[..i], dur, n, bars, barOpen, cur, sumPv, vol);
      bars := Finalise(bars, cur, sumPv, vol, n);
    } else {
      NoBars(dur, n);
    }
  }

  lemma PastUpTo(ticks: seq<Tick>, now: Timestamp)
    requires Past(ticks)
    ensures Past(UpTo(ticks, now))
  {
    var k: nat := 0;
    while k < |ticks| && ticks[k].recvTs <= now
      invariant k <= |ticks| && forall j :: 0 <= j < k ==> ticks[j].recvTs <= now
    {
      k := k + 1;
    }
    PastEnds(ticks, k, now);
    PastPrefix(ticks, k);
  }

  lemma NoBars(dur: int, n: nat)
    requires dur > 0
    ensures LastN(AllBars([], dur), n) == [] && UpTo([], n) == []
    ensures forall now :: UpTo([], now) == []
  {
    assert Buckets([], dur) == [];
  }

  lemma NoSize(px: Price, q: nat)
    ensures q == 0 ==> px * q == 0
  {}

  /** The first tick lies in the bar opened for it. */
  lemma FirstInside(t: Tick, dur: int)
    requires dur > 0
    ensures t.recvTs < OpenOf(Bucket(t, dur), dur) + dur
  {
    assert t.recvTs == dur * (t.recvTs / dur) + t.recvTs % dur;
    assert dur * (t.recvTs / dur) == (t.recvTs / dur) * dur;
  }

  lemma PastEnds(ticks: seq<Tick>, i: nat, now: Timestamp)
    requires Past(ticks) && i <= |ticks|
    requires forall j :: 0 <= j < i ==> ticks[j].recvTs <= now
    requires i < |ticks| ==> ticks[i].recvTs > now
    ensures UpTo(ticks, now) == ticks[..i]
  {
    UpToIsPrefix(ticks, i, now);
  }

  // ----- What the bars are

  lemma TruncBetween(x: int, v: int, low: int, high: int)
    requires v > 0 && low * v <= x <= high * v
    ensures low <= TruncDiv(x, v) <= high
  {
    if x >= 0 {
      DivAtLeast(x, v, low);
      DivAtMost(x, v, high);
    } else {
      assert (-low) * v == -(low * v) && (-high) * v == -(high * v);
      DivAtMost(-x, v, -low);
      DivAtLeast(-x, v, -high);
    }
  }

  lemma {:induction false} TurnoverBetween(g: seq<Tick>, low: Price, high: Price)
    requires forall i :: 0 <= i < |g| ==> low <= TradePrice(g[i]) <= high
    ensures low * Volume(g) <= Turnover(g) <= high * Volume(g)
    decreases |g|
  {
    if g != [] {
      var n := |g| - 1;
      TurnoverBetween(g[..n], low, high);
      TradeBetween(low, TradePrice(g[n]), high, g[n].lastSize, Volume(g[..n]));
    }
  }

  lemma TradeBetween(low: int, px: int, high: int, q: nat, v: nat)
    requires low <= px <= high
    ensures low * (v + q) == low * v + low * q && high * (v + q) == high * v + high * q
    ensures low * q <= px * q <= high * q
  {
    assert (px - low) * q >= 0 && (high - px) * q >= 0;
  }

  /** In every bar open, close and the average price lie between low and high, which are prices traded. */
  lemma BarIsBounded(g: seq<Tick>, dur: int, k: int)
    requires g != [] && dur > 0
    ensures var b := BarOf(g, dur, k);
            && b.low <= b.open <= b.high && b.low <= b.close <= b.high && b.low <= b.vwap <= b.high
            && (exists i :: 0 <= i < |g| && TradePrice(g[i]) == b.low)
            && (exists i :: 0 <= i < |g| && TradePrice(g[i]) == b.high)
  {
    hide TradePrice, Turnover, Volume, TruncDiv, OpenOf;
    TurnoverBetween(g, Lowest(g), Highest(g));
    if Volume(g) > 0 {
      TruncBetween(Turnover(g), Volume(g), Lowest(g), Highest(g));
    }
  }

  /** The traded value of ticks, a tick without a positive last price counting with its bid. */
  function Traded(g: seq<Tick>): int
    decreases |g|
  {
    if g == [] then 0
    else
      var t := g[|g| - 1];
      Traded(g[..|g| - 1]) + (if t.lastPrice > 0 then t.lastPrice else t.bidPrice) * t.lastSize
  }

  lemma {:induction false} TradedIsTurnover(g: seq<Tick>)
    ensures Traded(g) == Turnover(g)
    decreases |g|
  {
    if g != [] { TradedIsTurnover(g[..|g| - 1]); }
  }

  /** A bar over the ticks g, on the fields of the ticks. A tick counts with its last price, or with its bid if
      that is not positive: the first such price is the open, the last the close, the least and the
      greatest are low and high, and the average is their value over the volume, rounded toward zero. */
  ghost predicate Summarises(b: Bar, g: seq<Tick>)
    requires g != []
  {
    var last := g[|g| - 1];
    && b.symbolId == g[0].symbolId && b.tradeCount == |g| && b.volume == Volume(g)
    && b.open == (if g[0].lastPrice > 0 then g[0].lastPrice else g[0].bidPrice)
    && b.close == (if last.lastPrice > 0 then last.lastPrice else last.bidPrice)
    && (forall i :: 0 <= i < |g| ==>
          && (g[i].lastPrice > 0 ==> b.low <= g[i].lastPrice <= b.high)
          && (g[i].lastPrice <= 0 ==> b.low <= g[i].bidPrice <= b.high))
    && (exists i :: 0 <= i < |g| && b.low == if g[i].lastPrice > 0 then g[i].lastPrice else g[i].bidPrice)
    && (exists i :: 0 <= i < |g| && b.high == if g[i].lastPrice > 0 then g[i].lastPrice else g[i].bidPrice)
    && b.low <= b.vwap <= b.high
    && (b.volume == 0 ==> b.vwap == b.close)
    && (b.volume > 0 && Traded(g) >= 0 ==> 0 <= Traded(g) - b.vwap * b.volume < b.volume)
    && (b.volume > 0 && Traded(g) <= 0 ==> 0 <= b.vwap * b.volume - Traded(g) < b.volume)
  }

  lemma TruncShort(x: int, v: nat)
    requires v > 0
    ensures x >= 0 ==> 0 <= x - TruncDiv(x, v) * v < v
    ensures x <= 0 ==> 0 <= TruncDiv(x, v) * v - x < v
  {
    var size := if x >= 0 then x else -x;
    var share := size / v;
    assert size == v * share + size % v;
    assert (-share) * v == -(v * share);
  }

  lemma BarSummarises(g: seq<Tick>, dur: int, k: int)
    requires g != [] && dur > 0
    ensures var b := BarOf(g, dur, k);
            Summarises(b, g) && b.openTs == k * dur && b.closeTs == b.recvTs == b.openTs + dur - 1
  {
    hide Turnover, Volume, Traded, TruncDiv;
    BarIsBounded(g, dur, k);
    TradedIsTurnover(g);
    if Volume(g) > 0 {
      TruncShort(Turnover(g), Volume(g));
    }
  }

  lemma InsideBar(t: Tick, dur: int, k: int)
    requires dur > 0
    ensures Bucket(t, dur) == k <==> k * dur <= t.recvTs <= k * dur + dur - 1
  {
    var q := t.recvTs / dur;
    assert t.recvTs == dur * q + t.recvTs % dur && dur * q == q * dur;
    if q < k {
      ProductGrows(q + 1, k, dur);
      assert (q + 1) * dur == q * dur + dur;
    } else if k < q {
      ProductGrows(k + 1, q, dur);
      assert (k + 1) * dur == k * dur + dur;
    }
  }

  /** The ticks of a bucket are those received from its first instant to its last. */
  lemma {:induction false} GroupIsSpan(ticks: seq<Tick>, dur: int, k: int)
    requires dur > 0
    ensures Group(ticks, dur, k) == Between(ticks, k * dur, k * dur + dur - 1)
    decreases |ticks|
  {
    hide Bucket;
    if ticks != [] {
      GroupIsSpan(ticks[..|ticks| - 1], dur, k);
      InsideBar(ticks[|ticks| - 1], dur, k);
    }
  }

  /** The bar summarises exactly the ticks received from its open to its close time, a whole bar length that
      begins at a multiple of that length. */
  ghost predicate OnItsTicks(b: Bar, ticks: seq<Tick>, dur: int)
    requires dur > 0
  {
    && b.openTs % dur == 0 && b.closeTs == b.recvTs == b.openTs + dur - 1
    && Between(ticks, b.openTs, b.closeTs) != [] && Summarises(b, Between(ticks, b.openTs, b.closeTs))
  }

  lemma MultipleOf(k: int, dur: int)
    requires dur > 0
    ensures k * dur % dur == 0
  {
    ModIs(k * dur, dur, k, 0);
  }

  lemma BarAtIsOnItsTicks(ticks: seq<Tick>, dur: int, i: nat)
    requires dur > 0 && i < |AllBars(ticks, dur)|
    ensures OnItsTicks(AllBars(ticks, dur)[i], ticks, dur)
  {
    hide Group, Buckets, BarOf, Between, Summarises;
    var k := Buckets(ticks, dur)[i];
    BarsAt(ticks, dur, |Buckets(ticks, dur)|, i);
    GroupIsSpan(ticks, dur, k);
    BarSummarises(Group(ticks, dur, k), dur, k);
    MultipleOf(k, dur);
  }

  /** Every returned bar is on its ticks, and the bars are in the order of their times. */
  lemma LastBarsAreOnTheirTicks(ticks: seq<Tick>, dur: int, n: nat)
    requires dur > 0 && Past(ticks)
    ensures var bars := LastN(AllBars(ticks, dur), n);
            && (forall i :: 0 <= i < |bars| ==> OnItsTicks(bars[i], ticks, dur))
            && (forall i, j :: 0 <= i < j < |bars| ==> bars[i].closeTs < bars[j].openTs)
  {
    hide Between, Summarises, OnItsTicks, Bars, Past, Buckets;
    var all := AllBars(ticks, dur);
    var bars := LastN(all, n);
    var skipped := |all| - |bars|;
    assert bars == all[skipped..];
    hide LastN;
    forall i | 0 <= i < |bars| ensures OnItsTicks(bars[i], ticks, dur) {
      assert bars[i] == all[skipped + i];
      BarAtIsOnItsTicks(ticks, dur, skipped + i);
    }
    forall i, j | 0 <= i < j < |bars| ensures bars[i].closeTs < bars[j].openTs {
      assert bars[i] == all[skipped + i] && bars[j] == all[skipped + j];
      BarsInOrder(ticks, dur, skipped + i, skipped + j);
    }
  }

  lemma BarsInOrder(ticks: seq<Tick>, dur: int, i: nat, j: nat)
    requires dur > 0 && Past(ticks) && i < j < |AllBars(ticks, dur)|
    ensures AllBars(ticks, dur)[i].closeTs < AllBars(ticks, dur)[j].openTs
  {
    hide Group, Buckets, Bars, BarOf, Summarises;
    var ks := Buckets(ticks, dur);
    BucketsIncrease(ticks, dur);
    BarsAt(ticks, dur, |ks|, i);
    BarsAt(ticks, dur, |ks|, j);
    BarSummarises(Group(ticks, dur, ks[i]), dur, ks[i]);
    BarSummarises(Group(ticks, dur, ks[j]), dur, ks[j]);
    ProductGrows(ks[i] + 1, ks[j], dur);
    assert (ks[i] + 1) * dur == ks[i] * dur + dur;
  }

  /** The bar of a single tick shows one price five times: its last price, or its bid without one. */
  lemma SingleTickBar(t: Tick, dur: int, k: int)
    requires dur > 0
    ensures var b := BarOf([t], dur, k);
            && (t.lastPrice > 0 ==> b.open == b.high == b.low == b.close == b.vwap == t.lastPrice)
            && (t.lastPrice <= 0 ==> b.open == b.high == b.low == b.close == b.vwap == t.bidPrice)
            && b.volume == t.lastSize && b.tradeCount == 1
  {
    hide OpenOf, TruncDiv, Turnover, Volume;
    BarOfOne(t, dur, k);
    BarIsBounded([t], dur, k);
  }

  function TotalVolume(bars: seq<Bar>): nat
    decreases |bars|
  {
    if bars == [] then 0 else TotalVolume(bars[..|bars| - 1]) + bars[|bars| - 1].volume
  }

  function TotalCount(bars: seq<Bar>): nat
    decreases |bars|
  {
    if bars == [] then 0 else TotalCount(bars[..|bars| - 1]) + bars[|bars| - 1].tradeCount
  }

  lemma TotalsMore(bars: seq<Bar>, b: Bar)
    ensures TotalVolume(bars + [b]) == TotalVolume(bars) + b.volume
    ensures TotalCount(bars + [b]) == TotalCount(bars) + b.tradeCount
  {
    assert (bars + [b])[..|bars|] == bars;
  }

  /** No tick is lost or counted twice: the bars' volumes and trade counts add up to the ticks'. */
  lemma {:induction false} BarsConserve(ticks: seq<Tick>, dur: int)
    requires Past(ticks) && dur > 0
    ensures TotalVolume(AllBars(ticks, dur)) == Volume(ticks) && TotalCount(AllBars(ticks, dur)) == |ticks|
    decreases |ticks|
  {
    hide Group, Buckets, Bucket, Partial, OpenOf, Turnover, TradePrice, TruncDiv, Past, AllBars;
    if ticks == [] {
      NoBars(dur, 0);
      NoBarsAtAll(dur);
    } else {
      var n := |ticks| - 1;
      PastPrefix(ticks, n);
      assert ticks == ticks[..n] + [ticks[n]];
      BarsConserve(ticks[..n], dur);
      ConserveStep(ticks[..n], ticks[n], dur);
    }
  }

  lemma NoBarsAtAll(dur: int)
    requires dur > 0
    ensures AllBars([], dur) == []
  {
    assert Buckets([], dur) == [];
  }

  lemma ConserveStep(ticks: seq<Tick>, t: Tick, dur: int)
    requires Past(ticks + [t]) && dur > 0
    ensures TotalVolume(AllBars(ticks + [t], dur)) == TotalVolume(AllBars(ticks, dur)) + t.lastSize
    ensures TotalCount(AllBars(ticks + [t], dur)) == TotalCount(AllBars(ticks, dur)) + 1
  {
    hide Group, Buckets, Bucket, BarOf, Past, TotalVolume, TotalCount;
    if ticks == [] {
      assert [] + [t] == [t];
      FirstTick(t, dur);
      NoBarsAtAll(dur);
      BarOfOne(t, dur, Bucket(t, dur));
      TotalsMore([], BarOf([t], dur, Bucket(t, dur)));
    } else {
      NextTick(ticks, t, dur);
      var ks, k := Buckets(ticks, dur), Bucket(t, dur);
      var g := Group(ticks, dur, k);
      if k == ks[|ks| - 1] {
        GroupNonEmpty(ticks, dur, k);
        BarOfMore(g, t, dur, k);
        TotalsMore(Bars(ticks, dur, |ks| - 1), BarOf(g, dur, k));
        TotalsMore(Bars(ticks, dur, |ks| - 1), BarOf(g + [t], dur, k));
      } else {
        BarOfOne(t, dur, k);
        TotalsMore(AllBars(ticks, dur), BarOf([t], dur, k));
      }
    }
  }

  lemma BarOfOne(t: Tick, dur: int, k: int)
    requires dur > 0
    ensures BarOf([t], dur, k).tradeCount == 1 && BarOf([t], dur, k).volume == t.lastSize
  {
    hide OpenOf, TruncDiv, Turnover;
    PartialOne(t, dur, k);
  }

  lemma BarOfMore(g: seq<Tick>, t: Tick, dur: int, k: int)
    requires g != [] && dur > 0
    ensures BarOf(g + [t], dur, k).tradeCount == BarOf(g, dur, k).tradeCount + 1
    ensures BarOf(g + [t], dur, k).volume == BarOf(g, dur, k).volume + t.lastSize
  {
    hide OpenOf, TruncDiv, Turnover, TradePrice, Volume, Partial;
    PartialMore(g, t, dur, k);
  }

  lemma {:induction false} BarsAt(ticks: seq<Tick>, dur: int, m: nat, i: nat)
    requires dur > 0 && i < m <= |Buckets(ticks, dur)|
    ensures var k := Buckets(ticks, dur)[i];
            Group(ticks, dur, k) != [] && Bars(ticks, dur, m)[i] == BarOf(Group(ticks, dur, k), dur, k)
    decreases m
  {
    hide Group, Buckets, BarOf;
    GroupNonEmpty(ticks, dur, Buckets(ticks, dur)[i]);
    if i < m - 1 {
      BarsAt(ticks, dur, m - 1, i);
    }
  }

  lemma EarlierBucketEnds(k: int, t: Tick, dur: int)
    requires dur > 0 && k < Bucket(t, dur)
    ensures OpenOf(k, dur) + dur - 1 < t.recvTs
  {
    var q := t.recvTs / dur;
    assert t.recvTs == dur * q + t.recvTs % dur && dur * q == q * dur;
    ProductGrows(k + 1, q, dur);
    assert (k + 1) * dur == k * dur + dur;
  }

  /** Every bar but the newest has ended by now; the newest has ended only if the clock has reached its
      last instant, and otherwise carries a close time in the future. */
  lemma OnlyTheNewestBarIsOpen(ticks: seq<Tick>, dur: int, now: Timestamp)
    requires dur > 0 && Past(ticks) && UpTo(ticks, now) == ticks && ticks != []
    ensures var bars := AllBars(ticks, dur);
            var last := |bars| - 1;
            && |bars| > 0
            && (forall i :: 0 <= i < last ==> bars[i].closeTs <= now)
            && (bars[last].closeTs <= now <==> now >= OpenOf(Bucket(ticks[|ticks| - 1], dur), dur) + dur - 1)
  {
    hide Group, Buckets, Bucket, OpenOf, Bars, UpTo;
    BucketsIncrease(ticks, dur);
    NewestIsPast(ticks, now);
    var ks := Buckets(ticks, dur);
    var m := |ks|;
    forall i | 0 <= i < m ensures AllBars(ticks, dur)[i].closeTs == OpenOf(ks[i], dur) + dur - 1 {
      BarsAt(ticks, dur, m, i);
      CloseOfBar(Group(ticks, dur, ks[i]), dur, ks[i]);
    }
    forall i | 0 <= i < m - 1 ensures OpenOf(ks[i], dur) + dur - 1 < ticks[|ticks| - 1].recvTs {
      EarlierBucketEnds(ks[i], ticks[|ticks| - 1], dur);
    }
  }

  lemma CloseOfBar(g: seq<Tick>, dur: int, k: int)
    requires g != [] && dur > 0
    ensures BarOf(g, dur, k).closeTs == OpenOf(k, dur) + dur - 1
  {}

  lemma NewestIsPast(ticks: seq<Tick>, now: Timestamp)
    requires UpTo(ticks, now) == ticks && ticks != []
    ensures ticks[|ticks| - 1].recvTs <= now
  {
    UpToIsShorter(ticks[..|ticks| - 1], now);
  }

  lemma {:induction false} UpToIsShorter(ticks: seq<Tick>, now: Timestamp)
    ensures |UpTo(ticks, now)| <= |ticks|
    decreases |ticks|
  {
    if ticks != [] { UpToIsShorter(ticks[..|ticks| - 1], now); }
  }
}
