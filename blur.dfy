/** The region blur of the experimental video editor (temp.py): rectangles drawn on a frame
    screenshot, with undo, become one ffmpeg filter graph that blurs every region of the video. */
module Blur {
  import opened Wrappers
  import opened Strings
  import opened Paths
  import opened Io
  import opened Seqs

  /** A point of the screenshot scene. */
  datatype Point = Point(x: int, y: int)

  /** A `QRect`: its top-left corner and its size. */
  datatype Rect = Rect(x: int, y: int, width: int, height: int)

  /** `QRect(origin, QSize())`: `QSize()` is the invalid size -1 x -1. */
  function EmptyAt(p: Point): Rect {
    Rect(p.x, p.y, -1, -1)
  }

  /** One axis of `QRect(a, b).normalized()` in Qt 6, as its first cell and its number of cells.
      `QRect(a, b)` has `a` and `b` as its first and last cells; when `b` comes before `a` the two
      edges swap and each moves one step inwards, so a backward drag keeps only the cells strictly
      between the two points. */
  function NormalizedAxis(a: int, b: int): (r: (int, int))
    ensures r.1 >= 0
    ensures a <= b ==> r.0 == a && r.0 + r.1 - 1 == b
    ensures b < a ==> r.0 == b + 1 && r.0 + r.1 - 1 == a - 1
  {
    if b < a then (b + 1, (a - 1) - (b + 1) + 1) else (a, b - a + 1)
  }

  /** `QRect(a, b).normalized()` (Qt 6): each axis normalized on its own. */
  function Spanning(a: Point, b: Point): (r: Rect)
    ensures r.width >= 0 && r.height >= 0
    ensures a.x <= b.x ==> r.x == a.x && r.x + r.width - 1 == b.x
    ensures b.x < a.x ==> r.x == b.x + 1 && r.x + r.width - 1 == a.x - 1
    ensures a.y <= b.y ==> r.y == a.y && r.y + r.height - 1 == b.y
    ensures b.y < a.y ==> r.y == b.y + 1 && r.y + r.height - 1 == a.y - 1
  {
    var (x, w) := NormalizedAxis(a.x, b.x);
    var (y, h) := NormalizedAxis(a.y, b.y);
    Rect(x, y, w, h)
  }

  /** Dragging from the bottom-right corner to the top-left one does not give the rectangle of the
      opposite drag: it is one cell further in on each side, two cells narrower and two lower. */
  lemma SpanningReversed(a: Point, b: Point)
    requires a.x <= b.x && a.y <= b.y
    ensures var r := Spanning(a, b);
            b.x > a.x && b.y > a.y ==> Spanning(b, a) == Rect(r.x + 1, r.y + 1, r.width - 2, r.height - 2)
    ensures a == b ==> Spanning(b, a) == Spanning(a, b) == Rect(a.x, a.y, 1, 1)
  {
  }

  /** `ScreenshotSelectionWidget`. The rectangle items on the scene are named by numbers; `scene`
      maps each item still on the scene to the rectangle it shows. */
  class Selection {
    var origin: Point
    /** `temp_rect`: the item being drawn, if any. */
    var temp: Option<nat>
    var selectionRects: seq<Rect>
    var rectItems: seq<nat>
    var scene: map<nat, Rect>
    /** The name the next new item gets. */
    var nextItem: nat

    /** The two lists have the same length; each selected rectangle is what its item shows; every
        item is on the scene once, and the item being drawn is not yet among them. */
    predicate Valid()
      reads this
    {
      && |selectionRects| == |rectItems|
      && (forall i :: 0 <= i < |rectItems| ==> rectItems[i] in scene && scene[rectItems[i]] == selectionRects[i])
      && (forall i, j :: 0 <= i < j < |rectItems| ==> rectItems[i] != rectItems[j])
      && (forall k :: k in scene ==> k < nextItem)
      && (temp.Some? ==> temp.value in scene && temp.value !in rectItems)
    }

    constructor ()
      ensures Valid()
      ensures temp == None && selectionRects == [] && rectItems == [] && scene == map[]
    {
      origin := Point(0, 0);
      temp := None;
      selectionRects := [];
      rectItems := [];
      scene := map[];
      nextItem := 0;
    }

    /** `mousePressEvent`: the left button starts a new, empty rectangle item at the point. */
    method Press(left: bool, p: Point)
      requires Valid()
      modifies this
      ensures Valid()
      ensures selectionRects == old(selectionRects) && rectItems == old(rectItems)
      ensures !left ==> origin == old(origin) && temp == old(temp) && scene == old(scene) && nextItem == old(nextItem)
      ensures left ==> origin == p && temp == Some(old(nextItem)) && old(nextItem) !in old(scene)
                       && scene == old(scene)[old(nextItem) := EmptyAt(p)]
    {
      if left {
        origin := p;
        var item := nextItem;
        scene := scene[item := EmptyAt(p)];
        nextItem := nextItem + 1;
        temp := Some(item);
      }
    }

    /** `mouseMoveEvent`: while drawing, the item spans the press point and the mouse position. */
    method Move(p: Point)
      requires Valid()
      modifies this`scene
      ensures Valid()
      ensures temp.None? ==> scene == old(scene)
      ensures temp.Some? ==> scene == old(scene)[temp.value := Spanning(origin, p)]
    {
      if temp.Some? {
        scene := scene[temp.value := Spanning(origin, p)];
      }
    }

    /** `mouseReleaseEvent`: releasing the left button while drawing appends the rectangle and its
        item together and ends the drawing. */
    method Release(left: bool)
      requires Valid()
      modifies this`selectionRects, this`rectItems, this`temp
      ensures Valid()
      ensures left && old(temp).Some? ==>
                selectionRects == old(selectionRects) + [scene[old(temp).value]]
                && rectItems == old(rectItems) + [old(temp).value] && temp == None
      ensures !(left && old(temp).Some?) ==>
                selectionRects == old(selectionRects) && rectItems == old(rectItems) && temp == old(temp)
    {
      if left && temp.Some? {
        var item := temp.value;
        selectionRects := selectionRects + [scene[item]];
        rectItems := rectItems + [item];
        temp := None;
      }
    }

    /** `remove_last_rectangle`: takes the last item off the scene and pops both lists; nothing
        happens when there is no rectangle. */
    method Undo()
      requires Valid()
      modifies this`selectionRects, this`rectItems, this`scene
      ensures Valid()
      ensures old(rectItems) == [] ==>
                selectionRects == old(selectionRects) && rectItems == old(rectItems) && scene == old(scene)
      ensures old(rectItems) != [] ==>
                var n := |old(rectItems)|;
                rectItems == old(rectItems)[..n - 1] && selectionRects == old(selectionRects)[..n - 1]
                && scene == old(scene) - {old(rectItems)[n - 1]}
    {
      if rectItems != [] {
        var last := rectItems[|rectItems| - 1];
        rectItems := rectItems[..|rectItems| - 1];
        scene := scene - {last};
        if selectionRects != [] {
          selectionRects := selectionRects[..|selectionRects| - 1];
        }
      }
    }
  }

  // ---- The filter graph ----

  /** A stream of the graph: the input video, the i-th blurred region, or the i-th overlay's output. */
  datatype Label = Input | Blurred(region: nat) | Overlaid(region: nat)

  function LabelText(l: Label): string {
    match l
    case Input => "[0:v]"
    case Blurred(i) => "[blur" + NatToString(i) + "]"
    case Overlaid(i) => "[ovl" + NatToString(i) + "]"
  }

  /** A filter chain of a segment: crop a region and blur it, or overlay at a position. */
  datatype Filter = CropBlur(rect: Rect) | OverlayAt(x: int, y: int)

  function FilterText(f: Filter): string {
    match f
    case CropBlur(r) =>
      "crop=" + IntToString(r.width) + ":" + IntToString(r.height) + ":" + IntToString(r.x) + ":" + IntToString(r.y)
      + ",boxblur=10"
    case OverlayAt(x, y) => "overlay=" + IntToString(x) + ":" + IntToString(y)
  }

  /** One `;`-separated part of the graph: its input streams, its filters and its output stream. */
  datatype Segment = Segment(inputs: seq<Label>, filter: Filter, output: Label)

  function Labels(ls: seq<Label>): string {
    if ls == [] then "" else LabelText(ls[0]) + Labels(ls[1..])
  }

  /** A segment as ffmpeg's filter graph syntax writes it. */
  function Render(s: Segment): string {
    Labels(s.inputs) + FilterText(s.filter) + LabelText(s.output)
  }

  /** The stream the i-th overlay draws on: the input for the first, the previous overlay after that. */
  function OverlayInput(i: nat): Label {
    if i == 0 then Input else Overlaid(i - 1)
  }

  function CropSegment(i: nat, r: Rect): Segment {
    Segment([Input], CropBlur(r), Blurred(i))
  }

  function OverlaySegment(i: nat, r: Rect): Segment {
    Segment([OverlayInput(i), Blurred(i)], OverlayAt(r.x, r.y), Overlaid(i))
  }

  /** The segments of the graph: every crop in region order, then every overlay in region order. */
  function Segments(rects: seq<Rect>): (ss: seq<Segment>)
    ensures |ss| == 2 * |rects|
    ensures forall k {:trigger ss[k]} :: 0 <= k < |rects| ==> ss[k] == CropSegment(k, rects[k])
    ensures forall k {:trigger ss[k]} :: |rects| <= k < |ss| ==> ss[k] == OverlaySegment(k - |rects|, rects[k - |rects|])
  {
    seq(|rects|, i requires 0 <= i < |rects| => CropSegment(i, rects[i]))
    + seq(|rects|, i requires 0 <= i < |rects| => OverlaySegment(i, rects[i]))
  }

  /** The `-filter_complex` argument: the segments separated by `;`. */
  function FilterGraph(rects: seq<Rect>): string {
    JoinWith(Mapped(Render, Segments(rects)), ";")
  }

  /** One segment and the `;` the loops put after it. */
  function Terminated(s: Segment): string {
    Render(s) + ";"
  }

  function BlurredPath(file: string): (r: string)
    ensures r != file
  {
    RootWithSuffixIsNew(file, "_blurred.mp4");
    Root(file) + "_blurred.mp4"
  }

  function BlurCommand(file: string, graph: string, mapped: string): string {
    "ffmpeg -y -i \"" + file + "\" -filter_complex \"" + graph + "\" -map \"" + mapped + "\" -c:a copy \""
    + BlurredPath(file) + "\""
  }

  /** The graph is wired as intended: each region is cropped from the input video; the first overlay
      draws on the input, each later one on the previous overlay's output; every overlay lays the
      blurred region of its own crop; and the last overlay's output is the stream that is mapped. */
  lemma SegmentsChain(rects: seq<Rect>, i: nat)
    requires i < |rects|
    ensures Segments(rects)[i].inputs == [Input]
    ensures Segments(rects)[|rects| + i].inputs[1] == Segments(rects)[i].output == Blurred(i)
    ensures i == 0 ==> Segments(rects)[|rects| + i].inputs[0] == Input
    ensures i > 0 ==> Segments(rects)[|rects| + i].inputs[0] == Segments(rects)[|rects| + (i - 1)].output
    ensures Segments(rects)[|rects| + (|rects| - 1)].output == Overlaid(|rects| - 1)
  {
    var ss := Segments(rects);
    if i > 0 {
      assert ss[|rects| + (i - 1)] == OverlaySegment(i - 1, rects[i - 1]);
    }
    assert ss[|rects| + (|rects| - 1)] == OverlaySegment(|rects| - 1, rects[|rects| - 1]);
  }

  lemma DigitsAfter(prefix: string, i: nat, j: nat)
    requires prefix + NatToString(i) + "]" == prefix + NatToString(j) + "]"
    ensures i == j
  {
    var t := prefix + NatToString(i) + "]";
    assert NatToString(i) == t[|prefix|..|t| - 1];
    assert NatToString(j) == t[|prefix|..|t| - 1];
    NatToStringInjective(i, j);
  }

  /** Different streams have different labels, so no two segments feed or produce the same stream. */
  lemma LabelTextInjective(a: Label, b: Label)
    requires LabelText(a) == LabelText(b)
    ensures a == b
  {
    if a.Blurred? && b.Blurred? {
      DigitsAfter("[blur", a.region, b.region);
    }
    if a.Overlaid? && b.Overlaid? {
      DigitsAfter("[ovl", a.region, b.region);
    }
    assert LabelText(a)[1] == LabelText(b)[1];
  }

  /** No segment holds a `;`, so the separators are exactly the joints between segments. */
  lemma IntToStringSolid(n: int)
    ensures ';' !in IntToString(n)
  {
    var d := NatToString(if n < 0 then -n else n);
    assert forall i :: 0 <= i < |d| ==> IsDigit(d[i]);
    assert ';' !in d;
  }

  lemma LabelSolid(l: Label)
    ensures ';' !in LabelText(l)
  {
    if l.Blurred? || l.Overlaid? {
      IntToStringSolid(l.region);
    }
  }

  lemma {:induction false} LabelsSolid(ls: seq<Label>)
    ensures ';' !in Labels(ls)
  {
    if ls != [] {
      LabelSolid(ls[0]);
      LabelsSolid(ls[1..]);
    }
  }

  lemma RenderSolid(s: Segment)
    ensures ';' !in Render(s)
  {
    LabelsSolid(s.inputs);
    LabelSolid(s.output);
    match s.filter {
      case CropBlur(r) =>
        IntToStringSolid(r.x);
        IntToStringSolid(r.y);
        IntToStringSolid(r.width);
        IntToStringSolid(r.height);
      case OverlayAt(x, y) =>
        IntToStringSolid(x);
        IntToStringSolid(y);
    }
  }

  /** Splitting the graph at `;` gives back exactly the rendered segments, in order. */
  lemma FilterGraphSplits(rects: seq<Rect>)
    requires rects != []
    ensures Split(FilterGraph(rects), ';') == Mapped(Render, Segments(rects))
  {
    var fs := Mapped(Render, Segments(rects));
    forall k | 0 <= k < |fs| ensures ';' !in fs[k] {
      RenderSolid(Segments(rects)[k]);
    }
    SplitJoin(fs, ';');
  }

  /** Items each rendered and followed by a separator are the renderings joined by the separator,
      followed by one separator. */
  lemma {:induction false} JoinTerminated<T>(g: T -> string, f: T -> string, sep: string, xs: seq<T>)
    requires xs != []
    requires forall x :: g(x) == f(x) + sep
    ensures ConcatMap(g, xs) == JoinWith(Mapped(f, xs), sep) + sep
    decreases |xs|
  {
    ConcatMapCons(g, xs[0], xs[1..]);
    assert [xs[0]] + xs[1..] == xs;
    if |xs| == 1 {
      assert ConcatMap(g, xs[1..]) == [];
    } else {
      JoinTerminated(g, f, sep, xs[1..]);
      assert Mapped(f, xs[1..]) == Mapped(f, xs)[1..];
    }
  }

  /** A rendered segment ends with `]`, the end of its output label. */
  lemma RenderEnds(s: Segment)
    ensures Render(s) != [] && Render(s)[|Render(s)| - 1] == ']'
  {
    var r := Render(s);
    var o := LabelText(s.output);
    assert r[|r| - |o|..] == o;
    assert o[|o| - 1] == ']';
  }

  /** `filter_chain.rstrip(';')` takes off exactly the last separator, because the last part ends with `]`. */
  lemma StripLastSeparator(ss: seq<Segment>)
    requires ss != []
    ensures RStripChar(ConcatMap(Terminated, ss), ';') == JoinWith(Mapped(Render, ss), ";")
  {
    var fs := Mapped(Render, ss);
    JoinTerminated(Terminated, Render, ";", ss);
    RenderEnds(ss[|ss| - 1]);
    JoinWithLast(fs, ";");
    RStripAdded(JoinWith(fs, ";"), ';');
  }

  /** The two loops of `perform_blur`, collecting the segments in the order the source appends their
      text: every crop, then every overlay, each drawing on the stream the previous one produced. */
  method CollectSegments(rects: seq<Rect>) returns (parts: seq<Segment>, current: Label)
    ensures parts == Segments(rects)
    ensures current == OverlayInput(|rects|)
  {
    ghost var ss := Segments(rects);
    parts := [];
    var i := 0;
    while i < |rects|
      invariant 0 <= i <= |rects| && parts == ss[..i]
    {
      var r := rects[i];
      parts := parts + [Segment([Input], CropBlur(r), Blurred(i))];
      i := i + 1;
    }
    current := Input;
    i := 0;
    while i < |rects|
      invariant 0 <= i <= |rects| && parts == ss[..|rects| + i]
      invariant current == OverlayInput(i)
    {
      var r := rects[i];
      parts := parts + [Segment([current, Blurred(i)], OverlayAt(r.x, r.y), Overlaid(i))];
      current := Overlaid(i);
      i := i + 1;
    }
    assert parts == ss;
  }

  /** The filter graph `perform_blur` builds: the text of the collected segments, each followed by
      `;`, with the trailing `;` stripped; and the stream it maps. */
  method BuildFilterGraph(rects: seq<Rect>) returns (chain: string, current: Label)
    requires rects != []
    ensures chain == FilterGraph(rects)
    ensures current == Overlaid(|rects| - 1)
  {
    var parts;
    parts, current := CollectSegments(rects);
    StripLastSeparator(parts);
    chain := RStripChar(ConcatMap(Terminated, parts), ';');
  }

  /** `perform_blur` for the view's `selection_rects`, with `run` the outcome of running a shell
      command line with `check=True`. Without a region nothing runs; otherwise one command blurs
      every region, and the dialog is accepted only when it succeeds. */
  method PerformBlur(file: string, rects: seq<Rect>, run: string -> ToolRun) returns (effects: seq<Effect>, dialog: Dialog, accepted: bool)
    ensures rects == [] ==>
              effects == [] && dialog == Warning("No Selection", "Please select at least one region to blur.") && !accepted
    ensures rects != [] ==>
              var cmd := BlurCommand(file, FilterGraph(rects), LabelText(Overlaid(|rects| - 1)));
              effects == [Shell(cmd)]
              && (run(cmd).Succeeded? ==>
                    dialog == Information("Success", "Blurred video saved to:\n" + BlurredPath(file)) && accepted)
              && (run(cmd).Failed? ==>
                    dialog == Critical("Error", "Failed to apply blur: " + run(cmd).summary + "\nCommand: " + cmd) && !accepted)
  {
    if rects == [] {
      return [], Warning("No Selection", "Please select at least one region to blur."), false;
    }
    var chain, current := BuildFilterGraph(rects);
    var cmd := BlurCommand(file, chain, LabelText(current));
    effects := [Shell(cmd)];
    var outcome := run(cmd);
    if outcome.Succeeded? {
      dialog := Information("Success", "Blurred video saved to:\n" + BlurredPath(file));
      accepted := true;
    } else {
      dialog := Critical("Error", "Failed to apply blur: " + outcome.summary + "\nCommand: " + cmd);
      accepted := false;
    }
  }
}
