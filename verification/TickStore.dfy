/** The tick store: records in time order and the binary search over them. */
module TickStore {
  import opened Basics

  type Timestamp = int
  type Price = int

  datatype Tick = Tick(recvTs: Timestamp, symbolId: nat, bidPrice: Price, lastPrice: Price, lastSize: nat)

  ghost predicate InTimeOrder(ticks: seq<Tick>) {
    forall i, j :: 0 <= i < j < |ticks| ==> ticks[i].recvTs <= ticks[j].recvTs
  }

  /** The ticks received in a span of time, by their order in the store. */
  function Between(ticks: seq<Tick>, from: Timestamp, to: Timestamp): seq<Tick>
    decreases |ticks|
  {
    if ticks == [] then []
    else
      var n := |ticks| - 1;
      Between(ticks[..n], from, to) + if from <= ticks[n].recvTs <= to then [ticks[n]] else []
  }

  function UpTo(ticks: seq<Tick>, to: Timestamp): seq<Tick>
    decreases |ticks|
  {
    if ticks == [] then []
    else
      var n := |ticks| - 1;
      UpTo(ticks[..n], to) + if ticks[n].recvTs <= to then [ticks[n]] else []
  }

  /** The binary search. On any store it stops at a boundary; on one in time order the boundary parts
      the records before ts from those at or after it. */
  method LowerBound(ticks: seq<Tick>, ts: Timestamp) returns (first: nat)
    ensures first <= |ticks|
    ensures first > 0 ==> ticks[first - 1].recvTs < ts
    ensures first < |ticks| ==> ticks[first].recvTs >= ts
    ensures InTimeOrder(ticks) ==>
              && (forall i :: 0 <= i < first ==> ticks[i].recvTs < ts)
              && (forall i :: first <= i < |ticks| ==> ticks[i].recvTs >= ts)
  {
    first := 0;
    var count: nat := |ticks|;
    while count > 0
      invariant first + count <= |ticks|
      invariant first > 0 ==> ticks[first - 1].recvTs < ts
      invariant first + count < |ticks| ==> ticks[first + count].recvTs >= ts
    {
      var half := count / 2;
      var mid := first + half;
      if ticks[mid].recvTs < ts {
        first := mid + 1;
        count := count - (half + 1);
      } else {
        count := half;
      }
    }
  }

  /** The record at position k is t, received by ts, and all records behind it came later than ts. */
  ghost predicate IsNewest(ticks: seq<Tick>, k: int, t: Tick, ts: Timestamp) {
    0 <= k < |ticks| && ticks[k] == t && t.recvTs <= ts && forall i :: k < i < |ticks| ==> ticks[i].recvTs > ts
  }

  /** The newest record that is not in the future. */
  method LastAtOrBefore(ticks: seq<Tick>, ts: Timestamp) returns (r: Option<Tick>)
    requires InTimeOrder(ticks)
    ensures r == if UpTo(ticks, ts) == [] then None else Some(UpTo(ticks, ts)[|UpTo(ticks, ts)| - 1])
    ensures r == None ==> forall i :: 0 <= i < |ticks| ==> ticks[i].recvTs > ts
    ensures r.Some? ==> exists k :: IsNewest(ticks, k, r.value, ts)
  {
    var k := LowerBound(ticks, ts + 1);
    UpToIsPrefix(ticks, k, ts);
    if k == 0 { return None; }
    assert IsNewest(ticks, k - 1, ticks[k - 1], ts);
    return Some(ticks[k - 1]);
  }

  lemma {:induction false} UpToIsPrefix(ticks: seq<Tick>, k: nat, to: Timestamp)
    requires k <= |ticks|
    requires forall i :: 0 <= i < k ==> ticks[i].recvTs <= to
    requires forall i :: k <= i < |ticks| ==> ticks[i].recvTs > to
    ensures UpTo(ticks, to) == ticks[..k]
    decreases |ticks|
  {
    if ticks != [] {
      var n := |ticks| - 1;
      UpToIsPrefix(ticks[..n], if k <= n then k else n, to);
      if k == n + 1 {
        assert ticks[..n] + [ticks[n]] == ticks[..k];
      }
    }
  }

  lemma {:induction false} BetweenIsSlice(ticks: seq<Tick>, a: nat, b: nat, from: Timestamp, to: Timestamp)
    requires a <= b <= |ticks|
    requires forall i :: 0 <= i < a ==> ticks[i].recvTs < from
    requires forall i :: a <= i < b ==> from <= ticks[i].recvTs <= to
    requires forall i :: b <= i < |ticks| ==> ticks[i].recvTs > to
    ensures Between(ticks, from, to) == ticks[a..b]
    decreases |ticks|
  {
    if ticks != [] {
      var n := |ticks| - 1;
      var rest, t := ticks[..n], ticks[n];
      hide Between;
      assert ticks == rest + [t];
      BetweenMore(rest, t, from, to);
      if a == n + 1 {
        BetweenIsSlice(rest, n, n, from, to);
      } else if b == n + 1 {
        BetweenIsSlice(rest, a, n, from, to);
        assert rest[a..n] + [t] == ticks[a..b];
      } else {
        BetweenIsSlice(rest, a, b, from, to);
        assert rest[a..b] == ticks[a..b];
      }
    }
  }

  lemma BetweenMore(s: seq<Tick>, t: Tick, from: Timestamp, to: Timestamp)
    ensures Between(s + [t], from, to) == Between(s, from, to) + if from <= t.recvTs <= to then [t] else []
  {
    assert (s + [t])[..|s|] == s;
  }

  /** What lies in a span that ends at to is decided by what was received up to to. */
  lemma {:induction false} BetweenOfUpTo(ticks: seq<Tick>, from: Timestamp, to: Timestamp)
    ensures Between(ticks, from, to) == Between(UpTo(ticks, to), from, to)
    decreases |ticks|
  {
    if ticks != [] {
      var n := |ticks| - 1;
      BetweenOfUpTo(ticks[..n], from, to);
      var rest, t := UpTo(ticks[..n], to), ticks[n];
      if t.recvTs <= to {
        assert UpTo(ticks, to) == rest + [t];
        BetweenMore(rest, t, from, to);
      } else {
        assert UpTo(ticks, to) == rest;
      }
    }
  }
}
