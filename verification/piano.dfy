/** piano-tile-bot/user/userlogic.py: the row scanner that finds the white
    runs of one pixel row of a colour mask (`detect_line`), and the
    grouping, pairing and selection loops of `detect_buttons` over points
    found by template matching, which here are inputs. */
module PianoTiles {
  import opened Wrappers

  /** A detected line `[x1, y1, x2, y2]`. */
  datatype Segment = Segment(x1: int, y1: int, x2: int, y2: int)

  /** An image point `(x, y)`. */
  datatype Point = Point(x: int, y: int)

  // ---------------------------------------------------------------------
  // detect_line
  // ---------------------------------------------------------------------

  /** The state of the scan after some pixels. `start` is where the open
      run began; 0 stands for both Python's `None` and a run that began at
      pixel 0, since the source tests `line_start` for truth and so cannot
      tell them apart. `gap` counts the dark pixels met inside runs; it is
      never reset. */
  datatype Scan = Scan(start: nat, gap: int, lines: seq<Segment>)

  /** One pass of the scanning loop at pixel `px` (a pixel is white when
      its mask value is non-zero): the gap count never drops, and the lines
      found so far are kept, with at most one appended, on row `y`. */
  function Step(s: Scan, row: seq<bool>, px: nat, y: int, minLen: int, maxGap: int): (r: Scan)
    requires px < |row|
    ensures r.gap >= s.gap
    ensures s.lines <= r.lines && |r.lines| <= |s.lines| + 1
    ensures |r.lines| == |s.lines| + 1 ==> r.lines[|s.lines|].y1 == y && r.lines[|s.lines|].y2 == y
  {
    if s.start != 0 then
      if !row[px] then
        var gap := s.gap + 1;
        if gap > maxGap then
          Scan(0, gap, if px - s.start > minLen then s.lines + [Segment(s.start, y, px - maxGap, y)] else s.lines)
        else
          Scan(s.start, gap, s.lines)
      else
        s
    else if row[px] then
      Scan(px, s.gap, s.lines)
    else
      s
  }

  /** The scan state after the first `k` pixels. */
  function ScanTo(row: seq<bool>, k: nat, y: int, minLen: int, maxGap: int): Scan
    requires k <= |row|
  {
    if k == 0 then Scan(0, 0, [])
    else Step(ScanTo(row, k - 1, y, minLen, maxGap), row, k - 1, y, minLen, maxGap)
  }

  /** The value of the loop variable after the loop: the last index, or 0
      for an empty row, where it keeps its initial value. */
  function LastPixel(row: seq<bool>): nat {
    if row == [] then 0 else |row| - 1
  }

  /** The lines `detect_line` returns: those the scan emitted, in order,
      and the run still open at the end if it is longer than `minLen`. */
  function Lines(row: seq<bool>, y: int, minLen: int, maxGap: int): (r: seq<Segment>)
    ensures ScanTo(row, |row|, y, minLen, maxGap).lines <= r
    ensures |r| <= |ScanTo(row, |row|, y, minLen, maxGap).lines| + 1
  {
    var s := ScanTo(row, |row|, y, minLen, maxGap);
    var px := LastPixel(row);
    if s.start != 0 && px - s.start > minLen then s.lines + [Segment(s.start, y, px, y)] else s.lines
  }

  /** `int((a + b) / 2)`: the half of `a + b`, truncated toward zero; it
      lies between `a` and `b`. */
  function Midpoint(a: int, b: int): (m: int)
    ensures a + b >= 0 ==> 0 <= (a + b) - 2 * m <= 1
    ensures a + b < 0 ==> -1 <= (a + b) - 2 * m <= 0
    ensures (a <= b ==> a <= m <= b) && (b <= a ==> b <= m <= a)
  {
    if a + b >= 0 then (a + b) / 2 else -((-(a + b)) / 2)
  }

  /** `detect_line`: scans the row left to right and returns the lines and
      their midpoints, one per line, on the row `yAxis`. */
  method DetectLine(row: seq<bool>, yAxis: int, minLen: int, maxGap: int)
      returns (lines: seq<Segment>, mid: seq<Point>)
    ensures lines == Lines(row, yAxis, minLen, maxGap)
    ensures row == [] ==> lines == []
    ensures |mid| == |lines|
    ensures forall i :: 0 <= i < |lines| ==> mid[i] == Point(Midpoint(lines[i].x1, lines[i].x2), yAxis)
  {
    var currentGap := 0;
    var lineStart: nat := 0;
    lines := [];
    var px: nat := 0;
    for p := 0 to |row|
      invariant Scan(lineStart, currentGap, lines) == ScanTo(row, p, yAxis, minLen, maxGap)
      invariant px == if p == 0 then 0 else p - 1
    {
      px := p;
      if lineStart != 0 {
        if !row[px] {
          currentGap := currentGap + 1;
          if currentGap > maxGap {
            if px - lineStart > minLen {
              lines := lines + [Segment(lineStart, yAxis, px - maxGap, yAxis)];
            }
            lineStart := 0;
          }
        }
      } else if row[px] {
        lineStart := px;
      }
    }
    if lineStart != 0 && px - lineStart > minLen {
      lines := lines + [Segment(lineStart, yAxis, px, yAxis)];
    }
    mid := [];
    for i := 0 to |lines|
      invariant |mid| == i
      invariant forall j :: 0 <= j < i ==> mid[j] == Point(Midpoint(lines[j].x1, lines[j].x2), yAxis)
    {
      mid := mid + [Point(Midpoint(lines[i].x1, lines[i].x2), yAxis)];
    }
  }

  /** A line ended by a gap: it starts on a white pixel after pixel 0, the
      dark pixel `x2 + maxGap` that ended it lies before `bound`, and that
      pixel is more than `minLen` past the start. */
  predicate GapEnded(l: Segment, row: seq<bool>, y: int, minLen: int, maxGap: int, bound: nat)
    requires bound <= |row|
  {
    l.y1 == y && l.y2 == y && 1 <= l.x1 < l.x2 + maxGap < bound
    && row[l.x1] && !row[l.x2 + maxGap] && l.x2 + maxGap - l.x1 > minLen
  }

  /** A line the scan can return: ended by a gap, or the run still open at
      the last pixel, more than `minLen` long. */
  predicate Emitted(l: Segment, row: seq<bool>, y: int, minLen: int, maxGap: int) {
    GapEnded(l, row, y, minLen, maxGap, |row|)
    || (l.y1 == y && l.y2 == y && 1 <= l.x1 < |row| && row[l.x1]
        && l.x2 == |row| - 1 && l.x2 - l.x1 > minLen)
  }

  /** What holds of the scan after `k` pixels: an open run began on a white
      pixel before `k` and after every emitted line's start; the emitted
      lines are gap-ended before `k` and ordered by start. */
  predicate ScanOk(s: Scan, row: seq<bool>, k: nat, y: int, minLen: int, maxGap: int)
    requires k <= |row|
  {
    (s.start != 0 ==> s.start < k && row[s.start])
    && (forall i :: 0 <= i < |s.lines| ==> GapEnded(s.lines[i], row, y, minLen, maxGap, k))
    && (forall i, j :: 0 <= i < j < |s.lines| ==> s.lines[i].x1 < s.lines[j].x1)
    && (s.start != 0 ==> forall i :: 0 <= i < |s.lines| ==> s.lines[i].x1 < s.start)
  }

  lemma {:induction false} ScanToOk(row: seq<bool>, k: nat, y: int, minLen: int, maxGap: int)
    requires k <= |row|
    ensures ScanOk(ScanTo(row, k, y, minLen, maxGap), row, k, y, minLen, maxGap)
  {
    if k > 0 {
      ScanToOk(row, k - 1, y, minLen, maxGap);
      var s := ScanTo(row, k - 1, y, minLen, maxGap);
      assert forall i :: 0 <= i < |s.lines| ==> s.lines[i].x1 < k - 1 by {
        forall i | 0 <= i < |s.lines|
          ensures s.lines[i].x1 < k - 1
        {
          assert GapEnded(s.lines[i], row, y, minLen, maxGap, k - 1);
        }
      }
    }
  }

  /** Every returned line lies on the row `y`, starts on a white pixel
      after pixel 0, and is either ended by a gap or runs to the last
      pixel; the lines are ordered by their start. */
  lemma LinesAreEmitted(row: seq<bool>, y: int, minLen: int, maxGap: int)
    ensures forall i :: 0 <= i < |Lines(row, y, minLen, maxGap)| ==>
      Emitted(Lines(row, y, minLen, maxGap)[i], row, y, minLen, maxGap)
    ensures forall i, j :: 0 <= i < j < |Lines(row, y, minLen, maxGap)| ==>
      Lines(row, y, minLen, maxGap)[i].x1 < Lines(row, y, minLen, maxGap)[j].x1
  {
    ScanToOk(row, |row|, y, minLen, maxGap);
  }

  /** The dark-pixel count never decreases along the row. */
  lemma {:induction false} GapNeverDecreases(row: seq<bool>, j: nat, k: nat, y: int, minLen: int, maxGap: int)
    requires j <= k <= |row|
    ensures ScanTo(row, j, y, minLen, maxGap).gap <= ScanTo(row, k, y, minLen, maxGap).gap
    decreases k
  {
    if j < k {
      GapNeverDecreases(row, j, k - 1, y, minLen, maxGap);
    }
  }

  /** Because the count is never reset, once it exceeds `maxGap` any later
      run is ended by its first dark pixel. */
  lemma LongGapEndsLaterRunsAtOnce(row: seq<bool>, j: nat, k: nat, y: int, minLen: int, maxGap: int)
    requires j <= k < |row| && ScanTo(row, j, y, minLen, maxGap).gap > maxGap
    requires ScanTo(row, k, y, minLen, maxGap).start != 0 && !row[k]
    ensures ScanTo(row, k + 1, y, minLen, maxGap).start == 0
  {
    GapNeverDecreases(row, j, k, y, minLen, maxGap);
  }

  /** In an all-white row the run beginning at pixel 0 is taken to begin at
      pixel 1, and nothing ends it. */
  lemma {:induction false} AllWhiteScan(row: seq<bool>, k: nat, y: int, minLen: int, maxGap: int)
    requires forall i :: 0 <= i < |row| ==> row[i]
    requires 2 <= k <= |row|
    ensures ScanTo(row, k, y, minLen, maxGap) == Scan(1, 0, [])
  {
    if k > 2 {
      AllWhiteScan(row, k - 1, y, minLen, maxGap);
    } else {
      assert ScanTo(row, 1, y, minLen, maxGap) == Scan(0, 0, []);
    }
  }

  /** An all-white row of at least two pixels gives one line from pixel 1
      to the last pixel, or none when that is not longer than `minLen`. */
  lemma AllWhiteRow(row: seq<bool>, y: int, minLen: int, maxGap: int)
    requires forall i :: 0 <= i < |row| ==> row[i]
    requires |row| >= 2
    ensures Lines(row, y, minLen, maxGap) ==
      if |row| - 2 > minLen then [Segment(1, y, |row| - 1, y)] else []
  {
    AllWhiteScan(row, |row|, y, minLen, maxGap);
  }

  // ---------------------------------------------------------------------
  // detect_buttons
  // ---------------------------------------------------------------------

  /** Two points lie on the same button row when their y differ by less
      than 20. */
  predicate SameRow(p: Point, q: Point) {
    -20 < p.y - q.y < 20
  }

  /** Some key lies on the row of `p`. */
  predicate NearAny(keys: seq<Point>, p: Point) {
    exists i :: 0 <= i < |keys| && SameRow(p, keys[i])
  }

  /** The keys of `p_buttons` after the grouping loop, in insertion order:
      each empty-button point is added unless a key already lies on its
      row, so there are at most as many keys as points, and some key as
      soon as there is a point. */
  function Grouped(ps: seq<Point>): (r: seq<Point>)
    ensures |r| <= |ps|
    ensures ps != [] <==> r != []
  {
    if ps == [] then []
    else
      var g := Grouped(ps[..|ps| - 1]);
      var p := ps[|ps| - 1];
      if NearAny(g, p) then g else g + [p]
  }

  /** The grouping loop: keys are points of the input on pairwise distinct
      rows, and every input point lies on the row of some key. */
  lemma GroupedRows(ps: seq<Point>)
    ensures forall i :: 0 <= i < |Grouped(ps)| ==> Grouped(ps)[i] in ps
    ensures forall i, j :: 0 <= i < j < |Grouped(ps)| ==> !SameRow(Grouped(ps)[i], Grouped(ps)[j])
    ensures forall p :: p in ps ==> NearAny(Grouped(ps), p)
  {
    GroupedKeysArePoints(ps);
    GroupedKeysOnDistinctRows(ps);
    GroupedCoversPoints(ps);
  }

  /** Every key is one of the input points. */
  lemma {:induction false} GroupedKeysArePoints(ps: seq<Point>)
    ensures forall i :: 0 <= i < |Grouped(ps)| ==> Grouped(ps)[i] in ps
  {
    if ps != [] {
      var init := ps[..|ps| - 1];
      GroupedKeysArePoints(init);
      var g, p, G := Grouped(init), ps[|ps| - 1], Grouped(ps);
      assert ps == init + [p];
      assert G == if NearAny(g, p) then g else g + [p];
      forall i | 0 <= i < |G|
        ensures G[i] in ps
      {
        if i < |g| {
          assert G[i] == g[i] && g[i] in init;
        }
      }
    }
  }

  /** No two keys lie on the same row. */
  lemma {:induction false} GroupedKeysOnDistinctRows(ps: seq<Point>)
    ensures forall i, j :: 0 <= i < j < |Grouped(ps)| ==> !SameRow(Grouped(ps)[i], Grouped(ps)[j])
  {
    if ps != [] {
      var init := ps[..|ps| - 1];
      GroupedKeysOnDistinctRows(init);
      var g, p, G := Grouped(init), ps[|ps| - 1], Grouped(ps);
      assert G == if NearAny(g, p) then g else g + [p];
      forall i, j | 0 <= i < j < |G|
        ensures !SameRow(G[i], G[j])
      {
        assert G[i] == g[i];
        if j == |g| {
          assert G[j] == p && !SameRow(p, g[i]);
        } else {
          assert G[j] == g[j];
        }
      }
    }
  }

  /** Every input point lies on the row of some key. */
  lemma {:induction false} GroupedCoversPoints(ps: seq<Point>)
    ensures forall p :: p in ps ==> NearAny(Grouped(ps), p)
  {
    if ps != [] {
      var init := ps[..|ps| - 1];
      GroupedCoversPoints(init);
      var g, p, G := Grouped(init), ps[|ps| - 1], Grouped(ps);
      assert ps == init + [p];
      assert G == if NearAny(g, p) then g else g + [p];
      forall q | q in ps
        ensures NearAny(G, q)
      {
        if q in init {
          var i :| 0 <= i < |g| && SameRow(q, g[i]);
          assert G[i] == g[i];
        } else if !NearAny(g, p) {
          assert G[|g|] == p;
        }
      }
    }
  }

  /** The grouping loop of `detect_buttons` over the empty-button points. */
  method GroupEmpty(pEmpty: seq<Point>) returns (keys: seq<Point>)
    ensures keys == Grouped(pEmpty)
  {
    keys := [];
    for n := 0 to |pEmpty|
      invariant keys == Grouped(pEmpty[..n])
    {
      var p0 := pEmpty[n];
      var j := 0;
      while j < |keys| && !SameRow(p0, keys[j])
        invariant j <= |keys|
        invariant forall m :: 0 <= m < j ==> !SameRow(p0, keys[m])
      {
        j := j + 1;
      }
      assert pEmpty[..n + 1][..n] == pEmpty[..n];
      if j == |keys| {
        keys := keys + [p0];
      }
    }
    assert pEmpty[..|pEmpty|] == pEmpty;
  }

  /** The index of the first key on the row of `p`, if any. */
  function FirstNear(keys: seq<Point>, p: Point): (r: Option<nat>)
    ensures r.Some? ==>
      (r.value < |keys| && SameRow(p, keys[r.value])
       && forall m :: 0 <= m < r.value ==> !SameRow(p, keys[m]))
    ensures r.None? <==> !NearAny(keys, p)
  {
    if keys == [] then None
    else if SameRow(p, keys[0]) then Some(0)
    else
      match FirstNear(keys[1..], p)
      case None =>
        assert forall m :: 1 <= m < |keys| ==> keys[m] == keys[1..][m - 1];
        None
      case Some(i) =>
        assert forall m :: 1 <= m <= i + 1 ==> keys[m] == keys[1..][m - 1];
        Some(i + 1)
  }

  /** The values of `p_buttons` after the pairing loop, key by key: each
      play point goes to the first key on its row, if that key has no play
      point yet. */
  function Pairing(keys: seq<Point>, ps: seq<Point>): (r: seq<Option<Point>>)
    ensures |r| == |keys|
  {
    if ps == [] then seq(|keys|, _ => None)
    else
      var q := Pairing(keys, ps[..|ps| - 1]);
      var p := ps[|ps| - 1];
      match FirstNear(keys, p)
      case None => q
      case Some(i) => if q[i].None? then q[i := Some(p)] else q
  }

  /** The first play point whose first key on its row is key `i`. */
  function FirstClaim(keys: seq<Point>, ps: seq<Point>, i: nat): (r: Option<Point>)
    ensures r.Some? ==> r.value in ps && FirstNear(keys, r.value) == Some(i)
    ensures r.None? <==> forall p :: p in ps ==> FirstNear(keys, p) != Some(i)
  {
    if ps == [] then None
    else if FirstNear(keys, ps[0]) == Some(i) then Some(ps[0])
    else
      var r := FirstClaim(keys, ps[1..], i);
      assert forall p :: p in ps ==> p == ps[0] || p in ps[1..];
      r
  }

  lemma {:induction false} FirstClaimAppend(keys: seq<Point>, ps: seq<Point>, p: Point, i: nat)
    ensures FirstClaim(keys, ps + [p], i) ==
      if FirstClaim(keys, ps, i).Some? then FirstClaim(keys, ps, i)
      else if FirstNear(keys, p) == Some(i) then Some(p) else None
  {
    if ps != [] {
      assert (ps + [p])[0] == ps[0] && (ps + [p])[1..] == ps[1..] + [p];
      FirstClaimAppend(keys, ps[1..], p, i);
    } else {
      assert ps + [p] == [p];
    }
  }

  /** Each key is paired with the first play point whose first key on its
      row it is, or with nothing when there is none. */
  lemma {:induction false} PairingIsFirstClaim(keys: seq<Point>, ps: seq<Point>)
    ensures forall i :: 0 <= i < |keys| ==> Pairing(keys, ps)[i] == FirstClaim(keys, ps, i)
  {
    if ps != [] {
      var init := ps[..|ps| - 1];
      var p := ps[|ps| - 1];
      PairingIsFirstClaim(keys, init);
      assert ps == init + [p];
      forall i | 0 <= i < |keys|
        ensures Pairing(keys, ps)[i] == FirstClaim(keys, ps, i)
      {
        FirstClaimAppend(keys, init, p, i);
      }
    }
  }

  /** The pairing loop of `detect_buttons` over the play points. */
  method PairPlay(keys: seq<Point>, pPlay: seq<Point>) returns (paired: seq<Option<Point>>)
    ensures paired == Pairing(keys, pPlay)
  {
    paired := seq(|keys|, _ => None);
    for n := 0 to |pPlay|
      invariant paired == Pairing(keys, pPlay[..n])
    {
      var p0 := pPlay[n];
      var j := 0;
      while j < |keys| && !SameRow(p0, keys[j])
        invariant j <= |keys|
        invariant forall m :: 0 <= m < j ==> !SameRow(p0, keys[m])
      {
        j := j + 1;
      }
      assert pPlay[..n + 1][..n] == pPlay[..n];
      if j < |keys| {
        assert FirstNear(keys, p0) == Some(j);
        if paired[j].None? {
          paired := paired[j := Some(p0)];
        }
      } else {
        assert !NearAny(keys, p0);
      }
    }
    assert pPlay[..|pPlay|] == pPlay;
  }

  /** The placeholder `inf_button` the selection starts from. */
  const InfButton := Point(9999, 9999)

  /** The button chosen from the pairs: `None` when no paired play point
      lies above y = 9999; otherwise the first paired play point of least
      y, shifted by (+75, +38). */
  ghost predicate ChosenTop(paired: seq<Option<Point>>, top: Option<Point>) {
    if top.None? then
      forall i :: 0 <= i < |paired| && paired[i].Some? ==> paired[i].value.y >= InfButton.y
    else
      exists i :: 0 <= i < |paired| && paired[i].Some?
        && paired[i].value.y < InfButton.y
        && top.value == Point(paired[i].value.x + 75, paired[i].value.y + 38)
        && (forall j :: 0 <= j < |paired| && paired[j].Some? ==> paired[i].value.y <= paired[j].value.y)
        && (forall j :: 0 <= j < i && paired[j].Some? ==> paired[i].value.y < paired[j].value.y)
  }

  /** The selection loop of `detect_buttons`: the point where the next
      button is marked. */
  method TopButton(paired: seq<Option<Point>>) returns (top: Option<Point>)
    ensures ChosenTop(paired, top)
  {
    var best := InfButton;
    ghost var at := -1;
    for i := 0 to |paired|
      invariant -1 <= at < i
      invariant at == -1 ==>
        (best == InfButton
         && forall j :: 0 <= j < i && paired[j].Some? ==> paired[j].value.y >= InfButton.y)
      invariant at >= 0 ==>
        (paired[at] == Some(best) && best.y < InfButton.y
         && (forall j :: 0 <= j < i && paired[j].Some? ==> best.y <= paired[j].value.y)
         && (forall j :: 0 <= j < at && paired[j].Some? ==> best.y < paired[j].value.y))
    {
      if paired[i].Some? && paired[i].value.y < best.y {
        best := paired[i].value;
        at := i;
      }
    }
    if best != InfButton {
      top := Some(Point(best.x + 75, best.y + 38));
    } else {
      top := None;
    }
  }

  /** The loops of `detect_buttons` on the points template matching found:
      group the empty-button points by row, pair each row with a play
      point, and choose the topmost pair. */
  method DetectButtons(pEmpty: seq<Point>, pPlay: seq<Point>) returns (top: Option<Point>)
    ensures ChosenTop(Pairing(Grouped(pEmpty), pPlay), top)
  {
    var keys := GroupEmpty(pEmpty);
    var paired := PairPlay(keys, pPlay);
    top := TopButton(paired);
  }
}
