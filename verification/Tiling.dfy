/** Cutting a time range into consecutive windows of one step: the loop shape shared by the
    chunked backfill and by the historical REST fetch. */
module Tiling {

  datatype Window = Window(start: int, end: int)

  /** The end of the window that starts at `current`. */
  function NextEnd(current: int, end: int, step: int): int {
    if current + step > end then end else current + step
  }

  /** All windows of the loop, in order. */
  function Windows(start: int, end: int, step: int): seq<Window>
    requires step > 0
    decreases end - start
  {
    if start >= end then []
    else [Window(start, NextEnd(start, end, step))] + Windows(NextEnd(start, end, step), end, step)
  }

  /** The loop variable after n iterations, for any step. */
  function Position(start: int, end: int, step: int, n: nat): int {
    if n == 0 then start
    else
      var p := Position(start, end, step, n - 1);
      if p < end then NextEnd(p, end, step) else p
  }

  /** Windows of a range: they start and end with it, follow each other without gap or overlap,
      and all have the full step except possibly the last. */
  predicate Tiles(ws: seq<Window>, start: int, end: int, step: int) {
    && (ws == [] <==> start >= end)
    && (ws != [] ==> ws[0].start == start && ws[|ws| - 1].end == end)
    && (forall i :: 0 <= i < |ws| ==> 0 < ws[i].end - ws[i].start <= step)
    && (forall i :: 0 <= i < |ws| - 1 ==> ws[i].end == ws[i + 1].start && ws[i].end - ws[i].start == step)
  }

  lemma {:induction false} WindowsTile(start: int, end: int, step: int)
    requires step > 0
    ensures Tiles(Windows(start, end, step), start, end, step)
    decreases end - start
  {
    if start < end {
      var e := NextEnd(start, end, step);
      var rest := Windows(e, end, step);
      WindowsTile(e, end, step);
      TilesCons(Window(start, e), rest, end, step);
    }
  }

  lemma TilesCons(first: Window, rest: seq<Window>, end: int, step: int)
    requires Tiles(rest, first.end, end, step)
    requires 0 < first.end - first.start <= step && first.end <= end
    requires first.end < end ==> first.end - first.start == step
    ensures Tiles([first] + rest, first.start, end, step)
  {
    var ws := [first] + rest;
    forall i | 0 <= i < |ws| - 1 ensures ws[i].end == ws[i + 1].start && ws[i].end - ws[i].start == step {
      if i > 0 { assert ws[i] == rest[i - 1] && ws[i + 1] == rest[i]; }
    }
  }

  /** How many of the windows hold instant t, the end excluded. */
  function Holding(ws: seq<Window>, t: int): nat {
    if ws == [] then 0
    else (if ws[0].start <= t < ws[0].end then 1 else 0) + Holding(ws[1..], t)
  }

  /** Every instant of the range lies in exactly one window, every other instant in none. */
  lemma {:induction false} EachInstantOnce(start: int, end: int, step: int, t: int)
    requires step > 0
    ensures Holding(Windows(start, end, step), t) == if start <= t < end then 1 else 0
    decreases end - start
  {
    if start < end {
      var e := NextEnd(start, end, step);
      assert Windows(start, end, step)[1..] == Windows(e, end, step);
      EachInstantOnce(e, end, step, t);
    }
  }

  lemma {:induction false} NoProgress(start: int, end: int, step: int, n: nat)
    requires step <= 0 && start < end
    ensures Position(start, end, step, n) < end
  {
    if n > 0 { NoProgress(start, end, step, n - 1); }
  }

  lemma {:induction false} Progress(start: int, end: int, step: int, n: nat)
    requires step > 0
    ensures Position(start, end, step, n) >= end || Position(start, end, step, n) >= start + n
  {
    if n > 0 { Progress(start, end, step, n - 1); }
  }

  /** The loop ends exactly when the step is positive or there is nothing to do. */
  lemma LoopEnds(start: int, end: int, step: int)
    ensures (exists n: nat :: Position(start, end, step, n) >= end) <==> step > 0 || start >= end
  {
    if step > 0 {
      var n := if end > start then end - start else 0;
      Progress(start, end, step, n);
      assert Position(start, end, step, n) >= end;
    } else if start >= end {
      assert Position(start, end, step, 0) >= end;
    } else {
      forall n: nat ensures Position(start, end, step, n) < end {
        NoProgress(start, end, step, n);
      }
    }
  }
}
