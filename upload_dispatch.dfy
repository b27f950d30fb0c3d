/**
 * The part dispatcher of a multipart upload: it hands part numbers to the
 * workers, never more than a window's worth ahead of the lowest part still
 * uploading, and skips the parts a checkpoint already holds.
 *
 * `Window` is the dispatcher's abstract state; `FillWindow` and the two
 * acknowledgement rules are its specification, and `Dispatcher` is the
 * imperative dispatcher (a class over the part-number heap) proved against it.
 */
module UploadDispatch {
  import opened Heap

  /** Dispatcher state: next part to consider, lowest part of the window, parts handed out
      and not yet acknowledged, and every part handed out so far, in order. */
  datatype Window = Window(cur: int, min: int, inFlight: set<int>, sent: seq<int>)

  /** Number of parts in `lo..hi` that the checkpoint does not hold. */
  function Missing(done: seq<int>, lo: int, hi: int): nat
    decreases hi - lo
  {
    if hi < lo then 0 else Missing(done, lo, hi - 1) + (if hi in done then 0 else 1)
  }

  /** The first part at or after `from` that the checkpoint does not hold (`from` itself when
      `from` is already past the last part, `total + 1` when every remaining part is held). */
  function NextMissing(done: seq<int>, from: int, total: int): (r: int)
    decreases total - from
    ensures r >= from
    ensures r <= total ==> r !in done
    ensures forall p :: from <= p < r && p <= total ==> p in done
    ensures from <= total ==> r <= total + 1
  {
    if from > total then from
    else if from !in done then from
    else NextMissing(done, from + 1, total)
  }

  /**
   * The dispatcher starts its window at the first missing part. The source starts it at the
   * binary search's result itself; on a checkpoint without repeated part numbers that result
   * is never held, so the two starts coincide.
   */
  lemma CorrectedStartAgrees(done: seq<int>, first: int, total: int)
    requires StrictlyIncreasingPositive(done) && MissingBoundary(done, first)
    ensures first !in done
    ensures NextMissing(done, first, total) == first
  {
    forall k | 0 <= k < |done|
      ensures done[k] != first
    {
      if k < first - 1 {
        assert done[k] <= done[first - 2];
      } else if k > first - 1 {
        assert done[k] > done[first - 1];
        if first > 1 {
          assert done[first - 1] > done[first - 2];
        }
      }
    }
  }

  /** The inner loop of the dispatcher: hand out every part the checkpoint lacks while the part
      number is within the window and within the file. */
  ghost function FillWindow(done: seq<int>, total: int, w: int, s: Window): Window
    decreases if s.cur <= total then total - s.cur + 1 else 0
  {
    if s.cur <= total && s.cur < s.min + w then
      var next := if s.cur in done then s
                  else s.(inFlight := s.inFlight + {s.cur}, sent := s.sent + [s.cur]);
      FillWindow(done, total, w, next.(cur := s.cur + 1))
    else s
  }

  /** One turn of the fill loop: hand out the current part if the checkpoint lacks it, then move on. */
  ghost function FillStep(done: seq<int>, s: Window): Window {
    var next := if s.cur in done then s
                else s.(inFlight := s.inFlight + {s.cur}, sent := s.sent + [s.cur]);
    next.(cur := s.cur + 1)
  }

  /** A turn of the fill loop inside the window keeps the dispatcher's invariant and what the fill reaches. */
  lemma FillStepKeeps(done: seq<int>, total: int, w: int, start: int, s: Window)
    requires WindowOk(done, total, start, s) && s.cur <= total && s.cur < s.min + w
    ensures WindowOk(done, total, start, FillStep(done, s))
    ensures FillWindow(done, total, w, FillStep(done, s)) == FillWindow(done, total, w, s)
  {
  }

  lemma NonEmptyHasElement(s: set<int>)
    requires s != {}
    ensures exists m :: m in s
  {
    if forall m :: m !in s {
      assert false;
    }
  }

  lemma {:induction false} SetHasMin(s: set<int>)
    requires s != {}
    decreases |s|
    ensures exists m :: m in s && forall y :: y in s ==> m <= y
  {
    NonEmptyHasElement(s);
    var x :| x in s;
    var rest := s - {x};
    if rest == {} {
      forall y | y in s
        ensures x <= y
      {
        assert y !in rest;
      }
      assert x in s;
    } else {
      assert |rest| == |s| - 1;
      SetHasMin(rest);
      var m :| m in rest && forall y :: y in rest ==> m <= y;
      var least := if x < m then x else m;
      forall y | y in s
        ensures least <= y
      {
        if y != x {
          assert y in rest;
        }
      }
      assert least in s;
    }
  }

  ghost function MinOf(s: set<int>): (m: int)
    requires s != {}
    ensures m in s && forall y :: y in s ==> m <= y
  {
    SetHasMin(s);
    var m :| m in s && forall y :: y in s ==> m <= y;
    m
  }

  /** Acknowledging part `p` as the code is written: with no other part uploading, the window
      jumps to `p + w`. */
  ghost function AckAsWritten(w: int, s: Window, p: int): Window {
    var rest := s.inFlight - {p};
    s.(inFlight := rest, min := if rest == {} then p + w else MinOf(rest))
  }

  /** Acknowledging part `p` with the corrected rule: with no other part uploading, the window
      starts at the first part still to be uploaded. */
  ghost function AckCorrected(done: seq<int>, total: int, s: Window, p: int): Window {
    var rest := s.inFlight - {p};
    s.(inFlight := rest, min := if rest == {} then NextMissing(done, s.cur, total) else MinOf(rest))
  }

  predicate StrictlyIncreasing(s: seq<int>) {
    forall i, j :: 0 <= i < j < |s| ==> s[i] < s[j]
  }

  /** What the dispatcher keeps true from its first part `start` on: parts are handed out once
      each, in increasing order, only when the checkpoint lacks them, and all such parts before
      `cur` have been handed out. */
  ghost predicate WindowOk(done: seq<int>, total: int, start: int, s: Window) {
    start <= s.cur && (s.cur == start || s.cur <= total + 1) &&
    StrictlyIncreasing(s.sent) &&
    (forall i :: 0 <= i < |s.sent| ==> start <= s.sent[i] < s.cur && s.sent[i] <= total && s.sent[i] !in done) &&
    |s.sent| == Missing(done, start, s.cur - 1) &&
    (forall x :: x in s.inFlight ==> x in s.sent)
  }

  /** Filling keeps the dispatcher's invariant, only adds parts, and stops at the window's or the file's end. */
  lemma {:induction false} FillKeepsWindowOk(done: seq<int>, total: int, w: int, start: int, s: Window)
    requires WindowOk(done, total, start, s)
    ensures WindowOk(done, total, start, FillWindow(done, total, w, s))
    ensures FillWindow(done, total, w, s).min == s.min
    ensures FillWindow(done, total, w, s).cur >= s.cur
    ensures var r := FillWindow(done, total, w, s); r.cur > total || r.cur >= r.min + w
    decreases if s.cur <= total then total - s.cur + 1 else 0
  {
    if s.cur <= total && s.cur < s.min + w {
      var next := if s.cur in done then s
                  else s.(inFlight := s.inFlight + {s.cur}, sent := s.sent + [s.cur]);
      var t := next.(cur := s.cur + 1);
      assert WindowOk(done, total, start, t);
      FillKeepsWindowOk(done, total, w, start, t);
    }
  }

  /** Filling extends the list of parts handed out, and the parts it adds are exactly the new uploads. */
  lemma {:induction false} FillAddsSent(done: seq<int>, total: int, w: int, s: Window)
    ensures s.sent <= FillWindow(done, total, w, s).sent
    ensures forall x :: x in FillWindow(done, total, w, s).inFlight <==>
      x in s.inFlight || x in FillWindow(done, total, w, s).sent[|s.sent|..]
    decreases if s.cur <= total then total - s.cur + 1 else 0
  {
    if s.cur <= total && s.cur < s.min + w {
      var next := if s.cur in done then s
                  else s.(inFlight := s.inFlight + {s.cur}, sent := s.sent + [s.cur]);
      var t := next.(cur := s.cur + 1);
      FillAddsSent(done, total, w, t);
      var r := FillWindow(done, total, w, t);
      if s.cur !in done {
        assert r.sent[|s.sent|..] == [s.cur] + r.sent[|t.sent|..];
      }
    } else {
      assert s.sent[|s.sent|..] == [];
    }
  }

  /** Every part a fill hands out lies at or after `cur`, below the window's end and within the file. */
  lemma {:induction false} FillWithinWindow(done: seq<int>, total: int, w: int, s: Window)
    ensures |s.sent| <= |FillWindow(done, total, w, s).sent|
    ensures forall x :: x in FillWindow(done, total, w, s).sent[|s.sent|..] ==>
      s.cur <= x < s.min + w && x <= total
    decreases if s.cur <= total then total - s.cur + 1 else 0
  {
    if s.cur <= total && s.cur < s.min + w {
      var next := if s.cur in done then s
                  else s.(inFlight := s.inFlight + {s.cur}, sent := s.sent + [s.cur]);
      var t := next.(cur := s.cur + 1);
      FillWithinWindow(done, total, w, t);
      FillAddsSent(done, total, w, t);
      var r := FillWindow(done, total, w, t);
      if s.cur !in done {
        assert r.sent[|s.sent|..] == [s.cur] + r.sent[|t.sent|..];
      } else {
        assert r.sent[|s.sent|..] == r.sent[|t.sent|..];
      }
    } else {
      assert s.sent[|s.sent|..] == [];
    }
  }

  /** A part the checkpoint lacks, between `cur` and the window's end, is handed out by the fill. */
  lemma {:induction false} FillReaches(done: seq<int>, total: int, w: int, s: Window, m: int)
    requires s.cur <= m <= total && m !in done && m < s.min + w
    ensures m in FillWindow(done, total, w, s).inFlight
    decreases total - s.cur + 1
  {
    var next := if s.cur in done then s
                else s.(inFlight := s.inFlight + {s.cur}, sent := s.sent + [s.cur]);
    var t := next.(cur := s.cur + 1);
    if m == s.cur {
      FillKeepsInFlight(done, total, w, t, m);
    } else {
      FillReaches(done, total, w, t, m);
    }
  }

  /** Without a checkpoint the first fill hands out a whole window: parts `1..w` of a file that
      has at least `w` parts. */
  lemma {:induction false} FreshFillSendsWindow(total: int, w: int, s: Window)
    requires 1 <= w <= total
    requires s.min == 1 && 1 <= s.cur <= w + 1 && |s.sent| == s.cur - 1
    ensures |FillWindow([], total, w, s).sent| == w
    decreases w + 1 - s.cur
  {
    if s.cur < s.min + w {
      var t := s.(inFlight := s.inFlight + {s.cur}, sent := s.sent + [s.cur], cur := s.cur + 1);
      assert FillWindow([], total, w, s) == FillWindow([], total, w, t);
      FreshFillSendsWindow(total, w, t);
    }
  }

  lemma {:induction false} FillKeepsInFlight(done: seq<int>, total: int, w: int, s: Window, m: int)
    requires m in s.inFlight
    ensures m in FillWindow(done, total, w, s).inFlight
    decreases if s.cur <= total then total - s.cur + 1 else 0
  {
    if s.cur <= total && s.cur < s.min + w {
      var next := if s.cur in done then s
                  else s.(inFlight := s.inFlight + {s.cur}, sent := s.sent + [s.cur]);
      FillKeepsInFlight(done, total, w, next.(cur := s.cur + 1), m);
    }
  }

  lemma {:induction false} MissingUnchanged(done: seq<int>, lo: int, a: int, b: int)
    requires a <= b
    requires forall p :: a < p <= b ==> p in done
    ensures Missing(done, lo, b) == Missing(done, lo, a)
    decreases b - a
  {
    if a < b {
      MissingUnchanged(done, lo, a, b - 1);
    }
  }

  /**
   * Liveness of the corrected rule: if nothing is uploading and the window starts at the first
   * part still to be uploaded, then after a fill either some part is uploading or every part the
   * checkpoint lacks (from `start` on) has been handed out.
   */
  lemma CorrectedFillLeavesNothingBehind(done: seq<int>, total: int, w: int, start: int, s: Window)
    requires w >= 1
    requires WindowOk(done, total, start, s)
    requires s.inFlight == {}
    requires s.min == NextMissing(done, s.cur, total)
    ensures var r := FillWindow(done, total, w, s);
      r.inFlight == {} ==> |r.sent| == Missing(done, start, total)
  {
    FillKeepsWindowOk(done, total, w, start, s);
    var r := FillWindow(done, total, w, s);
    var m := s.min;
    if m <= total {
      FillReaches(done, total, w, s, m);
    } else if r.inFlight == {} {
      if r.cur - 1 <= total {
        MissingUnchanged(done, start, r.cur - 1, total);
      } else {
        assert r.cur == start && total < start;
        assert Missing(done, start, total) == 0;
      }
    }
  }

  /** Number of entries of `arr` with a value in `lo..hi`. */
  function CountIn(arr: seq<int>, lo: int, hi: int): nat {
    if arr == [] then 0 else (if lo <= arr[0] <= hi then 1 else 0) + CountIn(arr[1..], lo, hi)
  }

  lemma {:induction false} CountInSplit(arr: seq<int>, lo: int, hi: int)
    requires lo <= hi
    ensures CountIn(arr, lo, hi) >= CountIn(arr, lo, hi - 1) + (if hi in arr then 1 else 0)
  {
    if arr != [] {
      CountInSplit(arr[1..], lo, hi);
      if hi in arr && arr[0] != hi {
        assert hi in arr[1..];
      }
    }
  }

  /** Every value of `lo..hi` is either missing from `arr` or counted in it. */
  lemma {:induction false} MissingPlusHeld(done: seq<int>, lo: int, hi: int)
    requires lo - 1 <= hi
    ensures Missing(done, lo, hi) + CountIn(done, lo, hi) >= hi - lo + 1
    decreases hi - lo
  {
    if lo <= hi {
      MissingPlusHeld(done, lo, hi - 1);
      CountInSplit(done, lo, hi);
    } else {
      assert CountIn(done, lo, hi) >= 0;
    }
  }

  /** Entries before position `j` that lie below `lo` are not counted. */
  lemma {:induction false} CountInAfterPrefix(arr: seq<int>, lo: int, hi: int, j: int)
    requires 0 <= j <= |arr|
    requires forall k :: 0 <= k < j ==> arr[k] < lo
    ensures CountIn(arr, lo, hi) <= |arr| - j
  {
    if arr != [] {
      if j > 0 {
        CountInAfterPrefix(arr[1..], lo, hi, j - 1);
      } else {
        CountInAfterPrefix(arr[1..], lo, hi, 0);
      }
    }
  }

  /**
   * The collector waits for `total - |done|` parts. Starting from the binary search's boundary of
   * the sorted checkpoint list, at least that many parts are missing, so the dispatcher has enough
   * parts to hand out.
   */
  lemma EnoughMissing(done: seq<int>, start: int, total: int)
    requires forall i, j :: 0 <= i < j < |done| ==> done[i] <= done[j]
    requires MissingBoundary(done, start)
    ensures total - |done| <= Missing(done, start, total)
  {
    if start - 1 <= total {
      MissingPlusHeld(done, start, total);
      if start > 1 {
        forall k | 0 <= k < start - 1
          ensures done[k] < start
        {
          assert done[k] <= done[start - 2];
        }
      }
      CountInAfterPrefix(done, start, total, start - 1);
    }
  }

  /** Acknowledgements never break the dispatcher's invariant. */
  lemma AckKeepsWindowOk(done: seq<int>, total: int, w: int, start: int, s: Window, p: int)
    requires WindowOk(done, total, start, s)
    ensures WindowOk(done, total, start, AckCorrected(done, total, s, p))
    ensures WindowOk(done, total, start, AckAsWritten(w, s, p))
  {
  }

  /**
   * The as-written rule stalls: with parts 2..6 already in the checkpoint, 8 parts and a window
   * of 2 parts, the dispatcher sends part 1; when part 1 is acknowledged the window jumps to
   * 3..4, which the checkpoint holds, so nothing is uploading while parts 7 and 8 were never
   * handed out. The corrected rule hands out part 7 at that point.
   */
  lemma AsWrittenAckStalls()
    ensures var done := [2, 3, 4, 5, 6];
      var s1 := FillWindow(done, 8, 2, Window(1, 1, {}, []));
      var s2 := FillWindow(done, 8, 2, AckAsWritten(2, s1, 1));
      var c2 := FillWindow(done, 8, 2, AckCorrected(done, 8, s1, 1));
      s1.sent == [1] && s1.inFlight == {1} &&
      s2.inFlight == {} && s2.sent == [1] && Missing(done, 1, 8) == 3 &&
      c2.inFlight == {7, 8} && c2.sent == [1, 7, 8]
  {
    var done := [2, 3, 4, 5, 6];
    var s0 := Window(1, 1, {}, []);
    assert 1 !in done && 2 in done;
    var s1 := FillWindow(done, 8, 2, s0);
    assert s1 == Window(3, 1, {1}, [1]) by {
      assert FillWindow(done, 8, 2, s0) == FillWindow(done, 8, 2, Window(2, 1, {1}, [1]));
      assert FillWindow(done, 8, 2, Window(2, 1, {1}, [1])) == FillWindow(done, 8, 2, Window(3, 1, {1}, [1]));
    }
    var a := AckAsWritten(2, s1, 1);
    assert a == Window(3, 3, {}, [1]);
    assert 3 in done && 4 in done;
    assert FillWindow(done, 8, 2, a) == Window(5, 3, {}, [1]) by {
      assert FillWindow(done, 8, 2, a) == FillWindow(done, 8, 2, Window(4, 3, {}, [1]));
      assert FillWindow(done, 8, 2, Window(4, 3, {}, [1])) == FillWindow(done, 8, 2, Window(5, 3, {}, [1]));
    }
    assert 7 !in done && 8 !in done && 5 in done && 6 in done;
    assert Missing(done, 1, 8) == 3 by {
      assert Missing(done, 1, 1) == 1;
      assert Missing(done, 1, 6) == 1 by {
        assert Missing(done, 1, 2) == 1;
        assert Missing(done, 1, 3) == 1;
        assert Missing(done, 1, 4) == 1;
        assert Missing(done, 1, 5) == 1;
      }
    }
    var c := AckCorrected(done, 8, s1, 1);
    assert NextMissing(done, 3, 8) == 7 by {
      assert NextMissing(done, 3, 8) == NextMissing(done, 4, 8);
      assert NextMissing(done, 4, 8) == NextMissing(done, 5, 8);
      assert NextMissing(done, 5, 8) == NextMissing(done, 6, 8);
      assert NextMissing(done, 6, 8) == NextMissing(done, 7, 8);
    }
    assert c == Window(3, 7, {}, [1]);
    assert FillWindow(done, 8, 2, c) == Window(9, 7, {7, 8}, [1, 7, 8]) by {
      assert FillWindow(done, 8, 2, c) == FillWindow(done, 8, 2, Window(4, 7, {}, [1]));
      assert FillWindow(done, 8, 2, Window(4, 7, {}, [1])) == FillWindow(done, 8, 2, Window(5, 7, {}, [1]));
      assert FillWindow(done, 8, 2, Window(5, 7, {}, [1])) == FillWindow(done, 8, 2, Window(6, 7, {}, [1]));
      assert FillWindow(done, 8, 2, Window(6, 7, {}, [1])) == FillWindow(done, 8, 2, Window(7, 7, {}, [1]));
      assert FillWindow(done, 8, 2, Window(7, 7, {}, [1])) == FillWindow(done, 8, 2, Window(8, 7, {7}, [1, 7]));
      assert FillWindow(done, 8, 2, Window(8, 7, {7}, [1, 7])) == FillWindow(done, 8, 2, Window(9, 7, {7, 8}, [1, 7, 8]));
    }
  }

  /** The dispatcher goroutine's state: the parts the checkpoint holds (sorted), the part count,
      the window width in parts, the heap of parts uploading, and the parts handed out so far. */
  class Dispatcher {
    const done: seq<int>
    const total: int
    const w: int
    const start: int
    var curPart: int
    var minPart: int
    const uploading: IntHeap
    var sent: seq<int>

    ghost function Abstract(): Window
      reads this, uploading
    {
      Window(curPart, minPart, (set x | x in uploading.h), sent)
    }

    ghost predicate Valid()
      reads this, uploading
    {
      w >= 1 &&
      IsHeap(uploading.h) &&
      (forall x :: x in uploading.h ==> x < curPart) &&
      WindowOk(done, total, start, Abstract())
    }

    /** Starts at the first part missing from the sorted checkpoint list, with nothing uploading. */
    constructor (done: seq<int>, total: int, w: int)
      requires w >= 1
      ensures Valid() && fresh(uploading)
      ensures this.done == done && this.total == total && this.w == w
      ensures MissingBoundary(done, start)
      ensures Abstract() == Window(start, NextMissing(done, start, total), {}, [])
    {
      this.done := done;
      this.total := total;
      this.w := w;
      var first := FindMinMissingInteger(done);
      start := first;
      curPart := first;
      minPart := NextMissing(done, first, total);
      uploading := new IntHeap([]);
      sent := [];
      new;
      assert uploading.h == [];
    }

    /** Hands out every missing part inside the window. */
    method Fill()
      requires Valid()
      modifies this, uploading
      ensures Valid()
      ensures Abstract() == FillWindow(done, total, w, old(Abstract()))
    {
      while curPart <= total && curPart < minPart + w
        invariant Valid()
        invariant FillWindow(done, total, w, Abstract()) == FillWindow(done, total, w, old(Abstract()))
        decreases total - curPart
      {
        ghost var next := FillStep(done, Abstract());
        FillStepKeeps(done, total, w, start, Abstract());
        if curPart !in done {
          PushLargestKeepsHeap(uploading.h, curPart);
          uploading.Push(curPart);
          sent := sent + [curPart];
          assert (set x | x in uploading.h) == next.inFlight;
        }
        curPart := curPart + 1;
        assert Abstract() == next;
      }
    }

    /**
     * Records that part `p` finished and moves the window's lower end as the source does: to the
     * least part still uploading, or, when none is, to `p` plus the window width.
     */
    method Ack(p: int)
      requires Valid()
      modifies this, uploading
      ensures Valid()
      ensures Abstract() == AckAsWritten(w, old(Abstract()), p)
    {
      ghost var before := Abstract();
      ghost var after := AckAsWritten(w, before, p);
      AckKeepsWindowOk(done, total, w, start, before, p);
      uploading.Remove(p);
      assert forall y :: y in uploading.h <==> y in before.inFlight && y != p;
      assert (set x | x in uploading.h) == after.inFlight;
      if uploading.Len() == 0 {
        assert after.inFlight == {};
        minPart := p + w;
      } else {
        var least := uploading.Peek();
        assert least in after.inFlight;
        assert least == after.min;
        minPart := least;
      }
      assert Abstract() == after;
    }

    /**
     * The corrected acknowledgement: as Ack, except that with nothing left uploading the window
     * starts at the first part the checkpoint lacks from `curPart` on.
     */
    method AckToNextMissing(p: int)
      requires Valid()
      modifies this, uploading
      ensures Valid()
      ensures Abstract() == AckCorrected(done, total, old(Abstract()), p)
    {
      ghost var before := Abstract();
      ghost var after := AckCorrected(done, total, before, p);
      AckKeepsWindowOk(done, total, w, start, before, p);
      uploading.Remove(p);
      assert forall y :: y in uploading.h <==> y in before.inFlight && y != p;
      assert (set x | x in uploading.h) == after.inFlight;
      if uploading.Len() == 0 {
        assert after.inFlight == {};
        minPart := NextMissing(done, curPart, total);
      } else {
        var least := uploading.Peek();
        assert least in after.inFlight;
        assert least == after.min;
        minPart := least;
      }
      assert Abstract() == after;
    }
  }
}
