/** Day windows (src/ingestion/date_windows.js): a range cut into consecutive windows, and a window split in two. */
module DateWindows {
  import opened Collections

  /** The days from..until, both included. */
  datatype Window = Window(from: int, until: int)

  /** The windows of at most `size` days that cover from..until. */
  function Windows(from: int, until: int, size: int): (ws: seq<Window>)
    requires size >= 1
    ensures from <= until <==> ws != []
    decreases until - from
  {
    if from > until then []
    else
      var last := Min(from + size - 1, until);
      [Window(from, last)] + Windows(last + 1, until, size)
  }

  /** Fails when no window could hold a day. */
  method BuildWindows(from: int, until: int, size: int) returns (r: Option<seq<Window>>)
    ensures size < 1 <==> r.None?
    ensures size >= 1 ==> r == Some(Windows(from, until, size))
  {
    if size < 1 {
      return None;
    }
    var windows: seq<Window>, start := [], from;
    while start <= until
      invariant windows + Windows(start, until, size) == Windows(from, until, size)
      decreases until - start
    {
      var end := start + size - 1;
      var last := if end < until then end else until;
      assert Windows(start, until, size) == [Window(start, last)] + Windows(last + 1, until, size);
      windows := windows + [Window(start, last)];
      start := last + 1;
    }
    assert windows + [] == windows;
    r := Some(windows);
  }

  /** Every day of the range lies in exactly one window, the windows follow one another, and none exceeds the size. */
  lemma {:induction false} WindowsTileTheRange(from: int, until: int, size: int)
    requires size >= 1
    ensures var ws := Windows(from, until, size);
            && (forall k :: 0 <= k < |ws| ==>
                  && from <= ws[k].from <= ws[k].until <= until && ws[k].until - ws[k].from < size
                  && (k < |ws| - 1 ==> ws[k].until - ws[k].from == size - 1))
            && (forall k :: 0 <= k < |ws| - 1 ==> ws[k + 1].from == ws[k].until + 1)
            && (ws != [] ==> ws[0].from == from && ws[|ws| - 1].until == until)
    decreases until - from
  {
    if from <= until {
      var last := Min(from + size - 1, until);
      WindowsTileTheRange(last + 1, until, size);
      var ws, rest := Windows(from, until, size), Windows(last + 1, until, size);
      assert ws == [Window(from, last)] + rest;
      hide Windows;
      forall k | 0 < k < |ws| ensures ws[k] == rest[k - 1] {
      }
    }
  }

  /** Cutting again from where a window starts gives that window and all that follow. */
  lemma {:induction false} ContinueFromWindow(from: int, until: int, size: int, k: nat)
    requires size >= 1 && k < |Windows(from, until, size)|
    ensures Windows(Windows(from, until, size)[k].from, until, size) == Windows(from, until, size)[k..]
    decreases k
  {
    var ws, last := Windows(from, until, size), Min(from + size - 1, until);
    var rest := Windows(last + 1, until, size);
    assert ws == [Window(from, last)] + rest;
    hide Windows;
    if k == 0 {
      assert ws[0..] == ws;
    } else {
      ContinueFromWindow(last + 1, until, size, k - 1);
      assert ws[k] == rest[k - 1] && ws[k..] == rest[k - 1..];
    }
  }

  /** Two halves of a window of at least two days, the first at most a day longer; fails on a single day. */
  function SplitWindow(w: Window): (r: Option<(Window, Window)>)
    ensures r.Some? <==> w.from < w.until
    ensures r.Some? ==> r.value.0.from == w.from && r.value.1.until == w.until && r.value.1.from == r.value.0.until + 1
    ensures r.Some? ==> w.from <= r.value.0.until < w.until
    ensures r.Some? ==> 0 <= (r.value.0.until - r.value.0.from) - (r.value.1.until - r.value.1.from) <= 1
  {
    if w.from >= w.until then None
    else
      var mid := w.from + (w.until - w.from) / 2;
      Some((Window(w.from, mid), Window(mid + 1, w.until)))
  }
}
