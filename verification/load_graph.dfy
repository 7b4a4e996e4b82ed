/**
 The load graph's sample buffer and axis rules (MotorLoadGraphWidget).
 Times and loads are doubles in the program; here they are reals, and the
 plot itself (data hand-off, replot, styling) is not modelled: a graph is
 its two series plus the two axis ranges it last set.
 */
module LoadGraph {
  import Seqs

  /** The buffer keeps at most this many samples per series. */
  const MaxPoints: nat := 1000

  datatype Range = Range(lo: real, hi: real)

  datatype Graph = Graph(
    times: seq<real>,
    loads: seq<real>,
    x: Range,
    y: Range,
    embedded: bool)

  /** Width of the sliding time window: 30 s inside the main window, 60 s standalone. */
  function Window(embedded: bool): (w: real)
    ensures w > 0.0
    ensures embedded <==> w == 30.0
    ensures !embedded <==> w == 60.0
  {
    if embedded then 30.0 else 60.0
  }

  function RMax(a: real, b: real): (r: real)
    ensures r >= a && r >= b && (r == a || r == b)
  {
    if a >= b then a else b
  }

  /** The axes a graph starts with, and returns to on clearData. */
  function InitialX(embedded: bool): (r: Range)
    ensures r.lo == 0.0 && r.hi - r.lo == Window(embedded)
  {
    Range(0.0, Window(embedded))
  }

  const InitialY: Range := Range(0.0, 50.0)

  /** Both series of the same length and within the buffer limit. */
  predicate Bounded(g: Graph) {
    |g.times| == |g.loads| <= MaxPoints
  }

  /** A freshly constructed widget: no samples, x over [0, W], y over [0, 50]. */
  function NewGraph(embedded: bool): (g: Graph)
    ensures Bounded(g) && g.times == [] && g.loads == []
    ensures g.embedded == embedded
    ensures g.x.lo == 0.0 && g.x.hi == Window(embedded)
    ensures g.y.lo == 0.0 && g.y.hi == 50.0
  {
    Graph([], [], InitialX(embedded), InitialY, embedded)
  }

  /** The newest at most MaxPoints entries of a history. */
  function Keep(h: seq<real>): (r: seq<real>)
    ensures |r| <= MaxPoints
    ensures |r| == if |h| > MaxPoints then MaxPoints else |h|
    ensures r == h[|h| - |r|..]
  {
    if |h| > MaxPoints then h[|h| - MaxPoints..] else h
  }

  /**
   addDataPoint: append to both series, then drop the oldest entry of each
   when the time series has grown past the limit.
   */
  function AddDataPoint(g: Graph, t: real, l: real): (r: Graph)
    ensures |r.times| >= 1 && r.times[|r.times| - 1] == t
    ensures |g.times| <= MaxPoints ==> r.times == Keep(g.times + [t])
    ensures Bounded(g) ==> Bounded(r) && r.loads == Keep(g.loads + [l])
    ensures r.x == g.x && r.y == g.y && r.embedded == g.embedded
  {
    var times := g.times + [t];
    var loads := g.loads + [l];
    if |times| > MaxPoints then g.(times := times[1..], loads := loads[1..])
    else g.(times := times, loads := loads)
  }

  /**
   Under the buffer invariant the newest sample sits last in both series and
   every older entry kept is a suffix of what was there before: the oldest go first.
   */
  lemma AddDropsOldest(g: Graph, t: real, l: real)
    requires Bounded(g)
    ensures var r := AddDataPoint(g, t, l);
      && |r.times| == |r.loads| >= 1
      && r.times[|r.times| - 1] == t && r.loads[|r.loads| - 1] == l
      && r.times[..|r.times| - 1] == g.times[|g.times| - (|r.times| - 1)..]
      && r.loads[..|r.loads| - 1] == g.loads[|g.loads| - (|r.loads| - 1)..]
  {
    var r := AddDataPoint(g, t, l);
    var n := |r.times| - 1;
    assert r.times[..n] == (g.times + [t])[|g.times| - n..|g.times|];
    assert r.loads[..n] == (g.loads + [l])[|g.loads| - n..|g.loads|];
  }

  /** Below the limit nothing is dropped. */
  lemma AddBelowLimit(g: Graph, t: real, l: real)
    requires Bounded(g) && |g.times| < MaxPoints
    ensures AddDataPoint(g, t, l).times == g.times + [t]
    ensures AddDataPoint(g, t, l).loads == g.loads + [l]
  {
  }

  /** The buffer after a point is the newest MaxPoints of the history it summarises. */
  lemma AddKeepsNewest(g: Graph, h: seq<real>, t: real, l: real)
    requires g.times == Keep(h)
    ensures AddDataPoint(g, t, l).times == Keep(h + [t])
  {
    var r := AddDataPoint(g, t, l).times;
    var k := Keep(h + [t]);
    if |h| >= MaxPoints {
      assert |g.times| == MaxPoints;
      assert |r| == MaxPoints && |k| == MaxPoints;
      forall i | 0 <= i < MaxPoints
        ensures r[i] == k[i]
      {
        if i < MaxPoints - 1 {
          assert r[i] == g.times[i + 1] == h[|h| - MaxPoints + i + 1];
        }
      }
    }
  }

  /** Adding every sample of a run, oldest first. */
  function AddAll(g: Graph, ts: seq<real>, ls: seq<real>): (r: Graph)
    requires |ts| == |ls|
    ensures r.x == g.x && r.y == g.y && r.embedded == g.embedded
    decreases |ts|
  {
    if |ts| == 0 then g
    else AddAll(AddDataPoint(g, ts[0], ls[0]), ts[1..], ls[1..])
  }

  /** From an empty buffer, a run of samples leaves exactly its newest MaxPoints times. */
  lemma {:induction false} AddAllKeepsNewest(g: Graph, h: seq<real>, ts: seq<real>, ls: seq<real>)
    requires |ts| == |ls|
    requires g.times == Keep(h)
    ensures AddAll(g, ts, ls).times == Keep(h + ts)
    decreases |ts|
  {
    if |ts| > 0 {
      var next := AddDataPoint(g, ts[0], ls[0]);
      assert AddAll(g, ts, ls) == AddAll(next, ts[1..], ls[1..]);
      AddKeepsNewest(g, h, ts[0], ls[0]);
      Seqs.HeadTail(ts);
      Seqs.Assoc(h, [ts[0]], ts[1..]);
      AddAllKeepsNewest(next, h + [ts[0]], ts[1..], ls[1..]);
    }
  }

  lemma NewGraphKeepsAll(embedded: bool, ts: seq<real>, ls: seq<real>)
    requires |ts| == |ls|
    ensures AddAll(NewGraph(embedded), ts, ls).times == Keep(ts)
  {
    AddAllKeepsNewest(NewGraph(embedded), [], ts, ls);
    assert [] + ts == ts;
  }

  /** clearData: both series emptied and both axes back to their initial ranges. */
  function ClearData(g: Graph): (r: Graph)
    ensures r == NewGraph(g.embedded)
  {
    g.(times := [], loads := [], x := InitialX(g.embedded), y := InitialY)
  }

  /** The largest element (std::max_element of a non-empty vector). */
  function SeqMax(s: seq<real>): (m: real)
    requires |s| > 0
    ensures m in s
    ensures forall i :: 0 <= i < |s| ==> s[i] <= m
  {
    if |s| == 1 then s[0]
    else
      var rest := SeqMax(s[1..]);
      assert forall i :: 1 <= i < |s| ==> s[i] == s[1..][i - 1];
      if s[0] >= rest then s[0] else rest
  }

  /** The smallest element (std::min_element of a non-empty vector). */
  function SeqMin(s: seq<real>): (m: real)
    requires |s| > 0
    ensures m in s
    ensures forall i :: 0 <= i < |s| ==> m <= s[i]
  {
    if |s| == 1 then s[0]
    else
      var rest := SeqMin(s[1..]);
      assert forall i :: 1 <= i < |s| ==> s[i] == s[1..][i - 1];
      if s[0] <= rest then s[0] else rest
  }

  /**
   The y range fitted to the loads: from 5 below the smallest load (but not
   below 0) to 120% of the largest (but not below 50).
   */
  function YRange(loads: seq<real>): (r: Range)
    requires |loads| > 0
    ensures r.lo >= 0.0 && r.hi >= 50.0 && r.lo < r.hi
    ensures r.lo == 0.0 || r.lo == SeqMin(loads) - 5.0
    ensures r.hi == 50.0 || r.hi == SeqMax(loads) * 1.2
    ensures r.lo >= SeqMin(loads) - 5.0 && r.hi >= SeqMax(loads) * 1.2
    ensures forall i :: 0 <= i < |loads| && loads[i] >= 0.0 ==> r.lo <= loads[i] <= r.hi
  {
    var lo := RMax(0.0, SeqMin(loads) - 5.0);
    var hi := RMax(50.0, SeqMax(loads) * 1.2);
    assert SeqMin(loads) <= loads[0] <= SeqMax(loads);
    Range(lo, hi)
  }

  /** The sliding time window ending at the newest sample. */
  function XRange(last: real, embedded: bool): (r: Range)
    ensures r.hi - r.lo == Window(embedded)
    ensures r.lo >= 0.0
    ensures last > Window(embedded) ==> r.hi == last
    ensures last <= Window(embedded) ==> r == InitialX(embedded)
    ensures last >= 0.0 ==> r.lo <= last <= r.hi
  {
    var w := Window(embedded);
    if last > w then Range(last - w, last) else InitialX(embedded)
  }

  /** updateGraph: nothing without data; otherwise slide x to the newest time and fit y to the loads. */
  function UpdateGraph(g: Graph): (r: Graph)
    ensures r.times == g.times && r.loads == g.loads && r.embedded == g.embedded
    ensures g.times == [] || g.loads == [] ==> r == g
    ensures g.times != [] && g.loads != [] ==>
      && r.x == XRange(g.times[|g.times| - 1], g.embedded)
      && r.y == YRange(g.loads)
  {
    if |g.times| == 0 || |g.loads| == 0 then g
    else g.(x := XRange(g.times[|g.times| - 1], g.embedded), y := YRange(g.loads))
  }

  /** preserveGraph: the data stays and, when there is any, y is fitted again; x stays. */
  function PreserveGraph(g: Graph): (r: Graph)
    ensures r.times == g.times && r.loads == g.loads && r.x == g.x && r.embedded == g.embedded
    ensures g.times == [] || g.loads == [] ==> r == g
    ensures g.times != [] && g.loads != [] ==> r.y == YRange(g.loads)
  {
    if |g.times| == 0 || |g.loads| == 0 then g else g.(y := YRange(g.loads))
  }

  /** Redrawing twice shows what redrawing once shows. */
  lemma UpdateIdempotent(g: Graph)
    ensures UpdateGraph(UpdateGraph(g)) == UpdateGraph(g)
  {
  }

  /** Preserving after a redraw changes nothing: both fit y the same way. */
  lemma PreserveAfterUpdate(g: Graph)
    ensures PreserveGraph(UpdateGraph(g)) == UpdateGraph(g)
  {
  }

  /** The buffer rule and the axis rules never touch each other's fields. */
  lemma UpdateKeepsBound(g: Graph)
    requires Bounded(g)
    ensures Bounded(UpdateGraph(g)) && Bounded(PreserveGraph(g)) && Bounded(ClearData(g))
  {
  }

  /** Once the newest sample is past the window, x shows exactly the last W seconds of the run. */
  lemma SlidingWindowFollows(g: Graph, t: real, l: real)
    requires Bounded(g) && t > Window(g.embedded)
    ensures UpdateGraph(AddDataPoint(g, t, l)).x == Range(t - Window(g.embedded), t)
  {
  }

  /** Every non-negative load on screen lies inside the fitted y range. */
  lemma LoadsVisible(g: Graph, i: int)
    requires g.times != [] && 0 <= i < |g.loads| && g.loads[i] >= 0.0
    ensures UpdateGraph(g).y.lo <= g.loads[i] <= UpdateGraph(g).y.hi
  {
  }
}
