/** The receiver's reorder window for one symbol: in-order frames are dispatched at once, frames ahead
    wait in a bounded buffer, frames behind are discarded. */
module ReorderWindow {
  import opened Basics

  type Frame = seq<Byte>

  datatype Packet = Packet(seqNo: nat, frame: Frame)

  datatype Window = Window(expected: nat, pending: map<nat, Frame>)

  /** What a run of arrivals leads to. refused records that a frame ahead met a full buffer. */
  datatype Outcome = Outcome(window: Window, dispatched: seq<Frame>, gaps: nat, refused: bool)

  const START: Window := Window(0, map[])

  /** The drain loop: the window and the frames it dispatches. */
  function Drain(w: Window): (Window, seq<Frame>)
    decreases |w.pending|
  {
    if w.expected !in w.pending then (w, [])
    else
      Shrinks(w.pending, w.expected);
      var rest := Drain(Window(w.expected + 1, w.pending - {w.expected}));
      (rest.0, [w.pending[w.expected]] + rest.1)
  }

  lemma Shrinks(m: map<nat, Frame>, k: nat)
    requires k in m
    ensures |m - {k}| == |m| - 1
  {
    assert m.Keys == (m - {k}).Keys + {k};
    assert |m.Keys| == |m| && |(m - {k}).Keys| == |m - {k}|;
  }

  /** One arrival: the new window, the frames dispatched, whether it opened a gap, whether it was refused. */
  function Receive(w: Window, p: Packet, size: nat): (Window, seq<Frame>, bool, bool) {
    if p.seqNo < w.expected then (w, [], false, false)
    else if p.seqNo > w.expected then
      if |w.pending| < size then (w.(pending := w.pending[p.seqNo := p.frame]), [], true, false)
      else (w, [], true, true)
    else
      var rest := Drain(Window(w.expected + 1, w.pending));
      (rest.0, [p.frame] + rest.1, false, false)
  }

  function After(ps: seq<Packet>, size: nat): Outcome
    decreases |ps|
  {
    if ps == [] then Outcome(START, [], 0, false)
    else
      var o := After(ps[..|ps| - 1], size);
      var r := Receive(o.window, ps[|ps| - 1], size);
      Outcome(r.0, o.dispatched + r.1, o.gaps + (if r.2 then 1 else 0), o.refused || r.3)
  }

  // ----- What holds after any arrivals, with loss, duplicates and reordering

  ghost predicate Arrived(ps: seq<Packet>, k: nat, frame: Frame) {
    Packet(k, frame) in ps
  }

  ghost predicate Consistent(ps: seq<Packet>, w: Window, dispatched: seq<Frame>) {
    && |dispatched| == w.expected
    && (forall i :: 0 <= i < |dispatched| ==> Arrived(ps, i, dispatched[i]))
    && (forall k :: k in w.pending ==> k > w.expected && Arrived(ps, k, w.pending[k]))
  }

  /** Every sequence number that arrived is dispatched or waiting. */
  ghost predicate NothingLost(ps: seq<Packet>, w: Window) {
    forall i :: 0 <= i < |ps| ==> ps[i].seqNo < w.expected || ps[i].seqNo in w.pending
  }

  /** A window in the middle of a drain: the expected frame may be waiting. */
  ghost predicate Draining(ps: seq<Packet>, w: Window, dispatched: seq<Frame>) {
    && |dispatched| == w.expected
    && (forall i :: 0 <= i < |dispatched| ==> Arrived(ps, i, dispatched[i]))
    && (forall k :: k in w.pending ==> k >= w.expected && Arrived(ps, k, w.pending[k]))
  }

  lemma {:induction false} DrainKeeps(ps: seq<Packet>, w: Window, dispatched: seq<Frame>)
    requires Draining(ps, w, dispatched)
    ensures Consistent(ps, Drain(w).0, dispatched + Drain(w).1)
    ensures Drain(w).0.expected + |Drain(w).0.pending| == w.expected + |w.pending|
    ensures NothingLost(ps, w) ==> NothingLost(ps, Drain(w).0)
    decreases |w.pending|
  {
    hide Arrived;
    if w.expected in w.pending {
      var w1 := Window(w.expected + 1, w.pending - {w.expected});
      var d1 := dispatched + [w.pending[w.expected]];
      Shrinks(w.pending, w.expected);
      DrainKeeps(ps, w1, d1);
      assert d1 + Drain(w1).1 == dispatched + Drain(w).1;
    } else {
      assert dispatched + Drain(w).1 == dispatched;
    }
  }

  lemma ArrivedLater(ps: seq<Packet>, p: Packet)
    ensures Arrived(ps + [p], p.seqNo, p.frame)
    ensures forall k, f :: Arrived(ps, k, f) ==> Arrived(ps + [p], k, f)
  {
    assert (ps + [p])[|ps|] == p;
  }

  /** One arrival keeps the window consistent; without a refusal nothing is lost. */
  lemma ReceiveKeeps(ps: seq<Packet>, w: Window, dispatched: seq<Frame>, p: Packet, size: nat)
    requires Consistent(ps, w, dispatched) && |w.pending| <= size
    ensures var r := Receive(w, p, size);
            && Consistent(ps + [p], r.0, dispatched + r.1) && |r.0.pending| <= size
            && (NothingLost(ps, w) && !r.3 ==> NothingLost(ps + [p], r.0))
            && (!r.3 && p.seqNo >= w.expected && p.seqNo !in w.pending ==>
                  r.0.expected + |r.0.pending| == w.expected + |w.pending| + 1)
  {
    hide Arrived, Drain;
    ArrivedLater(ps, p);
    assert dispatched + [] == dispatched;
    if p.seqNo == w.expected {
      var w1, d1 := Window(w.expected + 1, w.pending), dispatched + [p.frame];
      DrainKeeps(ps + [p], w1, d1);
      assert d1 + Drain(w1).1 == dispatched + ([p.frame] + Drain(w1).1);
      DrainShrinks(w1);
    } else if p.seqNo > w.expected && |w.pending| < size {
      Grows(w.pending, p.seqNo, p.frame);
    }
  }

  lemma Grows(m: map<nat, Frame>, k: nat, f: Frame)
    ensures |m[k := f]| == |m| + if k in m then 0 else 1
  {
    assert m[k := f].Keys == m.Keys + {k};
    assert |m.Keys| == |m| && |m[k := f].Keys| == |m[k := f]|;
  }

  lemma {:induction false} DrainShrinks(w: Window)
    ensures |Drain(w).0.pending| <= |w.pending|
    decreases |w.pending|
  {
    if w.expected in w.pending {
      Shrinks(w.pending, w.expected);
      DrainShrinks(Window(w.expected + 1, w.pending - {w.expected}));
    }
  }

  /** For any arrivals the frames dispatched are those numbered 0 to expected - 1, once each and in
      order, each as it arrived; what waits is ahead of expected and within the window size. */
  lemma {:induction false} DispatchedInOrder(ps: seq<Packet>, size: nat)
    ensures var o := After(ps, size);
            && Consistent(ps, o.window, o.dispatched) && |o.window.pending| <= size
            && (!o.refused ==> NothingLost(ps, o.window))
    decreases |ps|
  {
    hide Receive, Consistent, NothingLost;
    if ps == [] {
      StartOk();
    } else {
      var t, p := ps[..|ps| - 1], ps[|ps| - 1];
      assert ps == t + [p];
      DispatchedInOrder(t, size);
      ReceiveKeeps(t, After(t, size).window, After(t, size).dispatched, p, size);
    }
  }

  lemma StartOk()
    ensures Consistent([], START, []) && NothingLost([], START) && |START.pending| == 0
  {}

  ghost predicate Received(ps: seq<Packet>, k: nat) {
    exists i :: 0 <= i < |ps| && ps[i].seqNo == k
  }

  /** If the buffer never refused a frame, expected is the least sequence number not yet received, and
      exactly the received numbers beyond it are waiting. */
  lemma ExpectedIsLeastMissing(ps: seq<Packet>, size: nat)
    ensures var o := After(ps, size);
            !o.refused ==>
              && !Received(ps, o.window.expected)
              && (forall k: nat :: k < o.window.expected ==> Received(ps, k))
              && (forall k: nat :: k in o.window.pending <==> k > o.window.expected && Received(ps, k))
  {
    hide After;
    DispatchedInOrder(ps, size);
    var o := After(ps, size);
    forall k: nat | k < o.window.expected ensures Received(ps, k) {
      assert Arrived(ps, k, o.dispatched[k]);
    }
  }

  // ----- Gaps

  /** An arrival is early if some smaller number has not been received before it. */
  ghost predicate Early(before: seq<Packet>, p: Packet) {
    exists k: nat :: k < p.seqNo && !Received(before, k)
  }

  ghost function EarlyCount(ps: seq<Packet>): nat
    decreases |ps|
  {
    if ps == [] then 0 else EarlyCount(ps[..|ps| - 1]) + if Early(ps[..|ps| - 1], ps[|ps| - 1]) then 1 else 0
  }

  lemma GapStep(ps: seq<Packet>, size: nat)
    requires ps != []
    ensures var t, p := ps[..|ps| - 1], ps[|ps| - 1];
            && After(ps, size).gaps == After(t, size).gaps + (if p.seqNo > After(t, size).window.expected then 1 else 0)
            && (After(t, size).refused ==> After(ps, size).refused)
  {
    hide Drain;
  }

  /** As long as the buffer refused nothing, a gap is counted exactly for every early arrival. */
  lemma {:induction false} GapsAreEarlyArrivals(ps: seq<Packet>, size: nat)
    requires !After(ps, size).refused
    ensures After(ps, size).gaps == EarlyCount(ps)
    decreases |ps|
  {
    hide After, Received;
    if ps == [] {
      NoGaps(size);
    } else {
      var t, p := ps[..|ps| - 1], ps[|ps| - 1];
      GapStep(ps, size);
      GapsAreEarlyArrivals(t, size);
      ExpectedIsLeastMissing(t, size);
      if p.seqNo > After(t, size).window.expected {
        assert !Received(t, After(t, size).window.expected);
      }
    }
  }

  lemma NoGaps(size: nat)
    ensures After([], size).gaps == 0
  {}

  // ----- Bounded reordering

  /** The arrivals are the numbers below n in some order; at[s] is the position of number s. */
  ghost predicate IsReordering(ps: seq<Packet>, at: seq<nat>) {
    && |at| == |ps|
    && (forall s :: 0 <= s < |at| ==> at[s] < |ps| && ps[at[s]].seqNo == s)
    && (forall i :: 0 <= i < |ps| ==> ps[i].seqNo < |at| && at[ps[i].seqNo] == i)
  }

  /** As long as nothing was refused, every distinct arrival is dispatched or waiting. */
  lemma {:induction false} CountsUp(ps: seq<Packet>, at: seq<nat>, k: nat, size: nat)
    requires IsReordering(ps, at) && k <= |ps| && !After(ps[..k], size).refused
    ensures var w := After(ps[..k], size).window; w.expected + |w.pending| == k
    decreases k
  {
    hide Receive, Consistent, NothingLost, IsReordering;
    if k > 0 {
      var t, p := ps[..k - 1], ps[k - 1];
      assert ps[..k] == t + [p] && ps[..k][..|ps[..k]| - 1] == t;
      CountsUp(ps, at, k - 1, size);
      DispatchedInOrder(t, size);
      var o := After(t, size);
      ReceiveKeeps(t, o.window, o.dispatched, p, size);
      NewArrival(ps, at, k - 1, o.window, o.dispatched);
    }
  }

  lemma NewArrival(ps: seq<Packet>, at: seq<nat>, k: nat, w: Window, dispatched: seq<Frame>)
    requires IsReordering(ps, at) && k < |ps| && Consistent(ps[..k], w, dispatched)
    ensures ps[k].seqNo >= w.expected && ps[k].seqNo !in w.pending
  {
    hide Consistent, Received, IsReordering;
    var s := ps[k].seqNo;
    NotBefore(ps, at, k);
    if s < w.expected || s in w.pending {
      KnownIsReceived(ps[..k], w, dispatched, s);
    }
  }

  lemma NotBefore(ps: seq<Packet>, at: seq<nat>, k: nat)
    requires IsReordering(ps, at) && k < |ps|
    ensures !Received(ps[..k], ps[k].seqNo)
  {
    forall i | 0 <= i < k ensures ps[..k][i].seqNo != ps[k].seqNo {
      assert at[ps[i].seqNo] == i;
    }
  }

  lemma KnownIsReceived(ps: seq<Packet>, w: Window, dispatched: seq<Frame>, s: nat)
    requires Consistent(ps, w, dispatched) && (s < w.expected || s in w.pending)
    ensures Received(ps, s)
  {
    assert Arrived(ps, s, if s < w.expected then dispatched[s] else w.pending[s]);
  }

  /** A displacement of at most the window size never meets a full buffer. */
  lemma {:induction false} NeverRefused(ps: seq<Packet>, at: seq<nat>, k: nat, size: nat)
    requires IsReordering(ps, at) && k <= |ps|
    requires forall s :: 0 <= s < |at| ==> at[s] <= s + size
    ensures !After(ps[..k], size).refused
    decreases k
  {
    hide Consistent, NothingLost, IsReordering, Drain;
    if k > 0 {
      var t, p := ps[..k - 1], ps[k - 1];
      assert ps[..k] == t + [p] && ps[..k][..|ps[..k]| - 1] == t;
      NeverRefused(ps, at, k - 1, size);
      CountsUp(ps, at, k - 1, size);
      var w := After(t, size).window;
      if p.seqNo > w.expected && |w.pending| >= size {
        ExpectedIsLeastMissing(t, size);
        MissingComesLater(ps, at, k - 1, w.expected);
      }
    }
  }

  lemma EarlierIsReceived(ps: seq<Packet>, k: nat, i: nat)
    requires i < k <= |ps|
    ensures Received(ps[..k], ps[i].seqNo)
  {
    assert ps[..k][i] == ps[i];
  }

  lemma MissingComesLater(ps: seq<Packet>, at: seq<nat>, k: nat, e: nat)
    requires IsReordering(ps, at) && k < |ps| && !Received(ps[..k], e) && e < ps[k].seqNo
    ensures e < |at| && at[e] > k
  {
    hide Received;
    if at[e] < k {
      EarlierIsReceived(ps, k, at[e]);
    }
  }

  /** If frame s arrives at position at most s + size for every s, the receiver drops nothing and
      dispatches every frame in sequence order. */
  lemma BoundedReordering(ps: seq<Packet>, at: seq<nat>, size: nat)
    requires IsReordering(ps, at)
    requires forall s :: 0 <= s < |at| ==> at[s] <= s + size
    ensures var o := After(ps, size);
            && !o.refused && o.window == Window(|ps|, map[])
            && |o.dispatched| == |ps| && forall s :: 0 <= s < |ps| ==> o.dispatched[s] == ps[at[s]].frame
  {
    hide After, Consistent, NothingLost, IsReordering, Received;
    var n := |ps|;
    assert ps[..n] == ps;
    NeverRefused(ps, at, n, size);
    CountsUp(ps, at, n, size);
    ExpectedIsLeastMissing(ps, size);
    DispatchedInOrder(ps, size);
    AllDispatched(ps, at, After(ps, size).window, After(ps, size).dispatched);
  }

  lemma AllReceived(ps: seq<Packet>, at: seq<nat>, e: nat)
    requires IsReordering(ps, at) && e < |ps|
    ensures Received(ps, e)
  {
    assert ps[at[e]].seqNo == e;
  }

  lemma NothingMissing(ps: seq<Packet>, at: seq<nat>, e: nat)
    requires IsReordering(ps, at) && !Received(ps, e)
    ensures e >= |ps|
  {
    hide Received;
    if e < |ps| {
      AllReceived(ps, at, e);
    }
  }

  lemma AllDispatched(ps: seq<Packet>, at: seq<nat>, w: Window, dispatched: seq<Frame>)
    requires IsReordering(ps, at) && Consistent(ps, w, dispatched) && !Received(ps, w.expected)
    requires w.expected + |w.pending| == |ps|
    ensures w == Window(|ps|, map[])
    ensures |dispatched| == |ps| && forall s :: 0 <= s < |ps| ==> dispatched[s] == ps[at[s]].frame
  {
    NothingMissing(ps, at, w.expected);
    assert |w.pending| == 0;
    forall s | 0 <= s < |ps| ensures dispatched[s] == ps[at[s]].frame {
      assert Arrived(ps, s, dispatched[s]);
      var i :| 0 <= i < |ps| && ps[i] == Packet(s, dispatched[s]);
      assert at[ps[i].seqNo] == i;
    }
  }

  // ----- Exactly when every frame is delivered

  /** A refusal is never taken back. */
  lemma {:induction false} RefusalPersists(ps: seq<Packet>, k: nat, size: nat)
    requires k <= |ps|
    ensures After(ps[..k], size).refused ==> After(ps, size).refused
    decreases |ps|
  {
    hide Receive;
    if k == |ps| {
      assert ps[..k] == ps;
    } else {
      RefusalPersists(ps[..|ps| - 1], k, size);
      assert ps[..|ps| - 1][..k] == ps[..k];
    }
  }

  /** A refused frame is neither dispatched nor waiting. */
  lemma {:induction false} CountsAtMost(ps: seq<Packet>, at: seq<nat>, k: nat, size: nat)
    requires IsReordering(ps, at) && k <= |ps|
    ensures var o := After(ps[..k], size);
            o.window.expected + |o.window.pending| <= k - if o.refused then 1 else 0
    decreases k
  {
    hide Receive, Consistent, NothingLost, IsReordering;
    if k > 0 {
      var t, p := ps[..k - 1], ps[k - 1];
      assert ps[..k] == t + [p] && ps[..k][..|ps[..k]| - 1] == t;
      CountsAtMost(ps, at, k - 1, size);
      DispatchedInOrder(t, size);
      var o := After(t, size);
      NewArrival(ps, at, k - 1, o.window, o.dispatched);
      ReceiveKeeps(t, o.window, o.dispatched, p, size);
      RefusedChangesNothing(o.window, p, size);
    }
  }

  lemma RefusedChangesNothing(w: Window, p: Packet, size: nat)
    ensures Receive(w, p, size).3 ==> Receive(w, p, size).0 == w
  {
    hide Drain;
  }

  /** A frame that is more than the window late finds a window that has had to refuse one. */
  lemma LateMeansRefused(ps: seq<Packet>, at: seq<nat>, s: nat, size: nat)
    requires IsReordering(ps, at) && s < |at| && at[s] > s + size
    ensures After(ps, size).refused
  {
    hide After, Consistent, NothingLost;
    var k := s + size + 1;
    assert at[s] < |ps|;
    var t := ps[..k];
    RefusalPersists(ps, k, size);
    if !After(t, size).refused {
      CountsUp(ps, at, k, size);
      DispatchedInOrder(t, size);
      ExpectedIsLeastMissing(t, size);
      NotYetReceived(ps, at, s, k);
    }
  }

  lemma NotYetReceived(ps: seq<Packet>, at: seq<nat>, s: nat, k: nat)
    requires IsReordering(ps, at) && s < |at| && k <= at[s] && k <= |ps|
    ensures !Received(ps[..k], s)
  {
    forall i | 0 <= i < k ensures ps[..k][i].seqNo != s {
      assert at[ps[i].seqNo] == i;
    }
  }

  /** Among the arrivals of the numbers below n in some order, the receiver dispatches all n frames exactly
      when frame s arrives at position at most s + size for every s; otherwise it has refused a frame. */
  lemma DeliversAllExactlyWhen(ps: seq<Packet>, at: seq<nat>, size: nat)
    requires IsReordering(ps, at)
    ensures After(ps, size).refused <==> exists s :: 0 <= s < |at| && at[s] > s + size
    ensures |After(ps, size).dispatched| == |ps| <==> forall s :: 0 <= s < |at| ==> at[s] <= s + size
  {
    hide After, Consistent, IsReordering, NothingLost;
    var n := |ps|;
    assert ps[..n] == ps;
    if forall s :: 0 <= s < |at| ==> at[s] <= s + size {
      BoundedReordering(ps, at, size);
    } else {
      var s :| 0 <= s < |at| && at[s] > s + size;
      LateMeansRefused(ps, at, s, size);
      CountsAtMost(ps, at, n, size);
      DispatchedCount(ps, size);
    }
  }

  lemma DispatchedCount(ps: seq<Packet>, size: nat)
    ensures |After(ps, size).dispatched| == After(ps, size).window.expected
  {
    hide After;
    DispatchedInOrder(ps, size);
  }

  // ----- The bound is tight

  /** Numbers 1 to size + 1 and then 0: number 0 is one position later than the bound allows. */
  function LateFirst(size: nat): seq<Packet> {
    seq(size + 1, (i: nat) => Packet(i + 1, [])) + [Packet(0, [])]
  }

  lemma {:induction false} AheadFills(size: nat, k: nat)
    requires k <= size
    ensures var o := After(LateFirst(size)[..k], size);
            && o.window.expected == 0 && |o.window.pending| == k && !o.refused
            && (forall s: nat :: s in o.window.pending <==> 1 <= s <= k)
    decreases k
  {
    if k == 0 {
    } else {
      AheadFills(size, k - 1);
      var t, p := LateFirst(size)[..k - 1], Packet(k, []);
      assert LateFirst(size)[..k] == t + [p];
      hide After, LateFirst, Receive;
      AfterOneMore(t, p, size);
      WaitsAhead(After(t, size).window, p, size);
    }
  }

  lemma AfterOneMore(ps: seq<Packet>, p: Packet, size: nat)
    ensures var o := After(ps, size);
            var r := Receive(o.window, p, size);
            After(ps + [p], size) == Outcome(r.0, o.dispatched + r.1, o.gaps + (if r.2 then 1 else 0), o.refused || r.3)
  {
    hide Receive;
    assert (ps + [p])[..|ps + [p]| - 1] == ps;
  }

  lemma WaitsAhead(w: Window, p: Packet, size: nat)
    requires p.seqNo > w.expected && |w.pending| < size && p.seqNo !in w.pending
    ensures var r := Receive(w, p, size);
            && !r.3 && r.0 == w.(pending := w.pending[p.seqNo := p.frame]) && |r.0.pending| == |w.pending| + 1
  {
    Grows(w.pending, p.seqNo, p.frame);
  }

  /** One position beyond the bound and a frame is dropped, for every window size. */
  lemma BoundIsTight(size: nat)
    ensures var ps := LateFirst(size);
            && ps[size + 1].seqNo == 0 && After(ps, size).refused
            && After(ps, size).window.expected == size + 1 && |ps| == size + 2
  {
    hide Drain;
    var ps := LateFirst(size);
    AheadFills(size, size);
    var full, most := ps[..size], ps[..size + 1];
    assert most[..|most| - 1] == full && most[size] == Packet(size + 1, []);
    assert ps[..|ps| - 1] == most;
    var w := After(full, size).window;
    assert After(most, size).window == w && After(most, size).refused;
    DrainsAll(Window(1, w.pending), size + 1);
  }

  lemma {:induction false} DrainsAll(w: Window, end: nat)
    requires w.expected <= end && forall s: nat :: s in w.pending <==> w.expected <= s < end
    ensures Drain(w).0.expected == end
    decreases |w.pending|
  {
    if w.expected < end {
      Shrinks(w.pending, w.expected);
      DrainsAll(Window(w.expected + 1, w.pending - {w.expected}), end);
    }
  }
}
