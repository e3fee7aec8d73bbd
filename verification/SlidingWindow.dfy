/** Sliding windows as values: what a stream of samples leaves in the buffers. */
module SlidingWindow {
  datatype Window = Window(values: seq<real>, size: int)

  /** A sample for a buffer; window is the Window of the rule that offers it. */
  datatype Event = Event(key: string, window: int, value: real)

  type Windows = map<string, Window>

  /** PointBuffer.Add */
  function Add(w: Window, v: real): Window {
    var values := w.values + [v];
    Window(if |values| > w.size then values[1..] else values, w.size)
  }

  /** The buffer of the event's key, created if missing, takes the value. */
  function Feed(ws: Windows, e: Event): Windows {
    ws[e.key := Add(if e.key in ws then ws[e.key] else Window([], e.window), e.value)]
  }

  function FeedAll(ws: Windows, events: seq<Event>): Windows {
    if events == [] then ws
    else Feed(FeedAll(ws, events[..|events| - 1]), events[|events| - 1])
  }

  lemma {:induction false} FeedAllJoin(ws: Windows, a: seq<Event>, b: seq<Event>)
    ensures FeedAll(ws, a + b) == FeedAll(FeedAll(ws, a), b)
  {
    if b == [] {
      assert a + b == a;
    } else {
      assert (a + b)[..|a + b| - 1] == a + b[..|b| - 1];
      FeedAllJoin(ws, a, b[..|b| - 1]);
    }
  }

  // ---- What the buffers hold --------------------------------------------

  function LastN(s: seq<real>, n: int): seq<real> {
    if n <= 0 then [] else if |s| <= n then s else s[|s| - n..]
  }

  /** The events of one key, in order. */
  function For(events: seq<Event>, key: string): seq<Event> {
    if events == [] then []
    else
      var before, e := For(events[..|events| - 1], key), events[|events| - 1];
      if e.key == key then before + [e] else before
  }

  function Values(events: seq<Event>): (values: seq<real>)
    ensures |values| == |events|
    ensures forall i :: 0 <= i < |events| ==> values[i] == events[i].value
  {
    seq(|events|, i requires 0 <= i < |events| => events[i].value)
  }

  lemma {:induction false} ForJoin(a: seq<Event>, b: seq<Event>, key: string)
    ensures For(a + b, key) == For(a, key) + For(b, key)
  {
    if b == [] {
      assert a + b == a;
    } else {
      assert (a + b)[..|a + b| - 1] == a + b[..|b| - 1];
      ForJoin(a, b[..|b| - 1], key);
    }
  }

  lemma AddToLast(s: seq<real>, v: real, size: int)
    ensures Add(Window(LastN(s, size), size), v) == Window(LastN(s + [v], size), size)
  {
    if size > 0 && |s| >= size {
      assert (LastN(s, size) + [v])[1..] == LastN(s + [v], size);
    }
  }

  /** A buffer exists for exactly the keys that had a sample. It holds the last
      max(0, size) of them, all if fewer, and its size is the Window of the rule that
      brought the first: no later rule, reloaded or not, changes it. */
  lemma {:induction false} BuffersHoldTheLast(events: seq<Event>, key: string)
    ensures var ws, mine := FeedAll(map[], events), For(events, key);
      && (key in ws <==> mine != [])
      && (mine != [] ==> ws[key] == Window(LastN(Values(mine), mine[0].window), mine[0].window))
  {
    if events != [] {
      var before, e := events[..|events| - 1], events[|events| - 1];
      BuffersHoldTheLast(before, key);
      var mine := For(before, key);
      if e.key == key {
        var size := if mine == [] then e.window else mine[0].window;
        assert Values(mine + [e]) == Values(mine) + [e.value];
        AddToLast(Values(mine), e.value, size);
      }
    }
  }

  // ---- Averages ---------------------------------------------------------

  function Sum(s: seq<real>): real {
    if s == [] then 0.0 else Sum(s[..|s| - 1]) + s[|s| - 1]
  }

  /** PointBuffer.Avg, over real numbers. */
  function Avg(s: seq<real>): real {
    if |s| == 0 then 0.0 else Sum(s) / |s| as real
  }

  lemma {:induction false} SumJoin(a: seq<real>, b: seq<real>)
    ensures Sum(a + b) == Sum(a) + Sum(b)
  {
    if b == [] {
      assert a + b == a;
    } else {
      assert (a + b)[..|a + b| - 1] == a + b[..|b| - 1];
      SumJoin(a, b[..|b| - 1]);
    }
  }

  /** The average is the sum of all the values over their number, the sum being the one
      that adds up over any cut and is the value itself on a single one. */
  lemma {:induction false} AvgIsMean(a: seq<real>, b: seq<real>, v: real)
    ensures Avg(a) * |a| as real == Sum(a) && Avg([]) == 0.0
    ensures Sum(a + b) == Sum(a) + Sum(b) && Sum([v]) == v
  {
    SumJoin(a, b);
    assert [v][..0] == [];
  }

  lemma {:induction false} SumBounds(s: seq<real>, low: real, high: real)
    requires forall i :: 0 <= i < |s| ==> low <= s[i] <= high
    ensures low * |s| as real <= Sum(s) <= high * |s| as real
  {
    if s != [] {
      SumBounds(s[..|s| - 1], low, high);
    }
  }

  /** The average of a non-empty window lies between any bounds on its values. */
  lemma AvgBounds(s: seq<real>, low: real, high: real)
    requires s != [] && forall i :: 0 <= i < |s| ==> low <= s[i] <= high
    ensures low <= Avg(s) <= high
  {
    SumBounds(s, low, high);
  }
}
