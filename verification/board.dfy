/** The board's mouse interaction: panning the view, dragging a node, and
    drawing a link from one node to another with the right button.

    The three interaction modes are independent flags, as in the source: a
    mouse-down can set panning and dragging, a context menu sets linking, and a
    mouse-up clears them all. Screen geometry (the board's bounding box, the
    temporary arrow) is rendering and left out; mouse positions and movements
    are given as reals. */
module Board {
  import opened Util
  import opened Graph
  import opened BoardState

  const MinZoom: real := 0.2
  const MaxZoom: real := 2.0
  const ZoomSpeed: real := 0.1

  /** `boardState`: the view transform and the last mouse position while
      panning. */
  datatype View = View(panX: real, panY: real, zoom: real, panning: bool, lastX: real, lastY: real)

  /** `dragState` (the offsets are unused by the handlers modelled here). */
  datatype Drag = Drag(dragging: bool, draggedId: Option<Id>)

  /** `linkState` */
  datatype Linking = Linking(linking: bool, sourceId: Option<Id>)

  datatype Board = Board(st: State, view: View, drag: Drag, link: Linking)

  /** Where a mouse event landed: the board background (the board itself or
      its node container), inside a node element, or anywhere else. */
  datatype Target = Background | OnNode(id: Id) | Elsewhere

  datatype Event =
    | MouseDown(target: Target, button: int, clientX: real, clientY: real)
    | ContextMenu(target: Target)
    | MouseMove(clientX: real, clientY: real, movementX: real, movementY: real)
    | MouseUp(target: Target)
    | Wheel(deltaY: real, mouseX: real, mouseY: real)
    | Click(target: Target)

  /** The zoom stays within the clamp bounds; it starts at 1 and only the wheel
      handler changes it. */
  predicate ValidView(v: View) {
    MinZoom <= v.zoom <= MaxZoom
  }

  /** The board as `initBoard` leaves it: the given pan, zoom 1, no mode. */
  function InitialBoard(st: State, panX: real, panY: real): (b: Board)
    ensures ValidView(b.view) && b.st == st
    ensures b.view.zoom == 1.0 && b.view.panX == panX && b.view.panY == panY
    ensures !b.view.panning && !b.drag.dragging && !b.link.linking
  {
    Board(st, View(panX, panY, 1.0, false, 0.0, 0.0), Drag(false, None), Linking(false, None))
  }

  // ---------------------------------------------------------------------------
  // mouse-down and context menu
  // ---------------------------------------------------------------------------

  /** `handleBoardMouseDown`: a left press on the background starts panning from
      the press position. */
  function BoardMouseDown(b: Board, target: Target, button: int, clientX: real, clientY: real): (r: Board)
    ensures target == Background && button == 0 ==>
      r == b.(view := b.view.(panning := true, lastX := clientX, lastY := clientY))
    ensures !(target == Background && button == 0) ==> r == b
  {
    if target == Background && button == 0 then
      b.(view := b.view.(panning := true, lastX := clientX, lastY := clientY))
    else b
  }

  /** `handleNodeMouseDown`: a press inside a node selects it; a left press also
      starts dragging it. Nothing else changes. */
  function NodeMouseDown(b: Board, target: Target, button: int): (r: Board)
    ensures !target.OnNode? ==> r == b
    ensures target.OnNode? ==>
      && r.st == b.st.(selected := Some(target.id))
      && r.view == b.view && r.link == b.link
      && (button == 0 ==> r.drag == Drag(true, Some(target.id)))
      && (button != 0 ==> r.drag == b.drag)
  {
    match target
    case OnNode(id) =>
      var selected := b.(st := b.st.(selected := Some(id)));
      if button == 0 then selected.(drag := Drag(true, Some(id))) else selected
    case _ => b
  }

  /** `handleNodeContextMenu`: a right click inside a node starts linking from
      it. */
  function NodeContextMenu(b: Board, target: Target): (r: Board)
    ensures target.OnNode? ==> r == b.(link := Linking(true, Some(target.id)))
    ensures !target.OnNode? ==> r == b
  {
    if target.OnNode? then b.(link := Linking(true, Some(target.id))) else b
  }

  // ---------------------------------------------------------------------------
  // mouse-move
  // ---------------------------------------------------------------------------

  /** `handleWindowMouseMove`: acts in at most one mode, linking first, then
      dragging, then panning. While linking only the temporary arrow moves, so
      the board is unchanged. While dragging, the dragged node moves by the
      mouse movement scaled by the zoom. While panning, the pan moves by the
      mouse's travel since the last event. */
  function WindowMouseMove(b: Board, clientX: real, clientY: real, movementX: real, movementY: real): (r: Board)
    requires ValidView(b.view)
    ensures b.link.linking ==> r == b
    ensures r.drag == b.drag && r.link == b.link
    ensures !b.link.linking && b.drag.dragging ==>
      && r.view == b.view
      && (b.drag.draggedId.None? ==> r.st == b.st)
      && (b.drag.draggedId.Some? ==>
            var id := b.drag.draggedId.value;
            && (FindIndex(b.st.nodes, id).None? ==> r.st == b.st)
            && (FindIndex(b.st.nodes, id).Some? ==>
                  var n := b.st.nodes[FindIndex(b.st.nodes, id).value];
                  r.st == UpdateNodePosition(b.st, id, n.x + movementX / b.view.zoom, n.y + movementY / b.view.zoom)))
    ensures !b.link.linking && !b.drag.dragging ==> r.st == b.st
    ensures !b.link.linking && !b.drag.dragging && b.view.panning ==>
      && r.view.panX - b.view.panX == clientX - b.view.lastX
      && r.view.panY - b.view.panY == clientY - b.view.lastY
      && r.view.lastX == clientX && r.view.lastY == clientY
      && r.view.zoom == b.view.zoom && r.view.panning
    ensures !b.link.linking && !b.drag.dragging && !b.view.panning ==> r == b
  {
    if b.link.linking then b
    else if b.drag.dragging then
      match b.drag.draggedId
      case None => b
      case Some(id) =>
        (match FindIndex(b.st.nodes, id)
         case None => b
         case Some(i) =>
           var n := b.st.nodes[i];
           b.(st := UpdateNodePosition(b.st, id, n.x + movementX / b.view.zoom, n.y + movementY / b.view.zoom)))
    else if b.view.panning then
      b.(view := b.view.(panX := b.view.panX + (clientX - b.view.lastX),
                         panY := b.view.panY + (clientY - b.view.lastY),
                         lastX := clientX, lastY := clientY))
    else b
  }

  // ---------------------------------------------------------------------------
  // mouse-up and link creation
  // ---------------------------------------------------------------------------

  /** The link rule on release over a node (board.js and script.js alike): a
      link of weight 1 from the source to the target is created when the source
      id names a node, the target differs from the source, and the source has no
      truthy link to the target yet. Otherwise nothing changes. */
  function DragLink(st: State, sourceId: Option<Id>, targetId: Id): (r: State)
    ensures r.selected == st.selected && SameIds(r.nodes, st.nodes)
    ensures forall j :: 0 <= j < |r.nodes| ==> r.nodes[j] == st.nodes[j].(links := r.nodes[j].links)
    ensures forall j :: 0 <= j < |r.nodes| && r.nodes[j] != st.nodes[j] ==>
      && sourceId.Some? && FindIndex(st.nodes, sourceId.value) == Some(j)
      && targetId != sourceId.value && !IsLinked(st.nodes[j], targetId)
      && r.nodes[j].links == st.nodes[j].links[targetId := 1]
    ensures sourceId.Some? && FindIndex(st.nodes, sourceId.value).Some? && targetId != sourceId.value ==>
      IsLinked(r.nodes[FindIndex(st.nodes, sourceId.value).value], targetId)
  {
    if sourceId.None? then st
    else match FindIndex(st.nodes, sourceId.value)
      case None => st
      case Some(i) =>
        if targetId == sourceId.value || IsLinked(st.nodes[i], targetId) then st
        else UpdateLink(st, sourceId.value, targetId, Some(1))
  }

  /** A link of weight 0 reads as no link, so drawing over it sets it to 1. */
  lemma {:induction false} DragLinkOverwritesZeroWeight(st: State, sourceId: Id, targetId: Id)
    requires FindIndex(st.nodes, sourceId).Some? && targetId != sourceId
    requires var n := st.nodes[FindIndex(st.nodes, sourceId).value];
             targetId in n.links && n.links[targetId] == 0
    ensures var i := FindIndex(st.nodes, sourceId).value;
            DragLink(st, Some(sourceId), targetId).nodes[i].links[targetId] == 1
  {
  }

  /** No node links to itself. */
  predicate NoSelfLinks(nodes: seq<Node>) {
    forall j :: 0 <= j < |nodes| ==> nodes[j].id !in nodes[j].links
  }

  /** Drawing links never creates a self-link, never rewrites a truthy link,
      and keeps every weight non-zero when they were. */
  lemma {:induction false} DragLinkInvariants(st: State, sourceId: Option<Id>, targetId: Id)
    ensures var r := DragLink(st, sourceId, targetId);
      && (NoSelfLinks(st.nodes) ==> NoSelfLinks(r.nodes))
      && (NonZeroWeights(st.nodes) ==> NonZeroWeights(r.nodes))
      && (forall j, t :: 0 <= j < |st.nodes| && IsLinked(st.nodes[j], t) ==>
            t in r.nodes[j].links && r.nodes[j].links[t] == st.nodes[j].links[t])
  {
    var r := DragLink(st, sourceId, targetId);
    forall j | 0 <= j < |r.nodes| && r.nodes[j] != st.nodes[j]
      ensures r.nodes[j].id != targetId
    {
      assert st.nodes[j].id == sourceId.value;
    }
  }

  /** `handleWindowMouseUp`: a release over a node while linking applies the
      link rule; whatever the mode, panning, dragging and linking all end and
      the dragged and source ids are cleared. The view transform is kept. */
  function WindowMouseUp(b: Board, target: Target): (r: Board)
    ensures !r.view.panning && r.drag == Drag(false, None) && r.link == Linking(false, None)
    ensures r.view == b.view.(panning := false)
    ensures b.link.linking && target.OnNode? ==> r.st == DragLink(b.st, b.link.sourceId, target.id)
    ensures !(b.link.linking && target.OnNode?) ==> r.st == b.st
  {
    var st := if b.link.linking && target.OnNode? then DragLink(b.st, b.link.sourceId, target.id) else b.st;
    Board(st, b.view.(panning := false), Drag(false, None), Linking(false, None))
  }

  // ---------------------------------------------------------------------------
  // wheel and click
  // ---------------------------------------------------------------------------

  /** The wheel's zoom clamp: the requested zoom, cut to the range [0.2, 2]. */
  function ClampZoom(z: real): (r: real)
    ensures MinZoom <= r <= MaxZoom
    ensures MinZoom <= z <= MaxZoom ==> r == z
    ensures z < MinZoom ==> r == MinZoom
    ensures z > MaxZoom ==> r == MaxZoom
  {
    var upper := if z < MaxZoom then z else MaxZoom;
    if MinZoom > upper then MinZoom else upper
  }

  /** `handleBoardWheel`: the zoom moves against the wheel delta and is clamped
      to [0.2, 2]; the pan is adjusted so that the board point under the cursor
      stays under the cursor. */
  function BoardWheel(b: Board, deltaY: real, mouseX: real, mouseY: real): (r: Board)
    requires ValidView(b.view)
    ensures ValidView(r.view)
    ensures r.view.zoom == ClampZoom(b.view.zoom - deltaY * (ZoomSpeed / 100.0))
    ensures (mouseX - r.view.panX) / r.view.zoom == (mouseX - b.view.panX) / b.view.zoom
    ensures (mouseY - r.view.panY) / r.view.zoom == (mouseY - b.view.panY) / b.view.zoom
    ensures r == b.(view := r.view) && r.view == b.view.(zoom := r.view.zoom, panX := r.view.panX, panY := r.view.panY)
  {
    var oldZoom := b.view.zoom;
    var zoom := ClampZoom(oldZoom - deltaY * (ZoomSpeed / 100.0));
    var panX := mouseX - (mouseX - b.view.panX) * (zoom / oldZoom);
    var panY := mouseY - (mouseY - b.view.panY) * (zoom / oldZoom);
    CursorPointFixed(mouseX, b.view.panX, oldZoom, zoom);
    CursorPointFixed(mouseY, b.view.panY, oldZoom, zoom);
    b.(view := b.view.(zoom := zoom, panX := panX, panY := panY))
  }

  /** The board coordinate under screen coordinate `m` is `(m - pan) / zoom`;
      rescaling the pan as the wheel handler does keeps it. */
  lemma {:induction false} CursorPointFixed(m: real, pan: real, oldZoom: real, zoom: real)
    requires oldZoom > 0.0 && zoom > 0.0
    ensures (m - (m - (m - pan) * (zoom / oldZoom))) / zoom == (m - pan) / oldZoom
  {
    var d := m - pan;
    calc {
      (m - (m - d * (zoom / oldZoom))) / zoom;
      (d * (zoom / oldZoom)) / zoom;
      { assert d * (zoom / oldZoom) == (d / oldZoom) * zoom; }
      ((d / oldZoom) * zoom) / zoom;
      d / oldZoom;
    }
  }

  /** `handleBoardClick`: a click on the background clears the selection. */
  function BoardClick(b: Board, target: Target): (r: Board)
    ensures target == Background ==> r == b.(st := b.st.(selected := None))
    ensures target != Background ==> r == b
  {
    if target == Background then b.(st := b.st.(selected := None)) else b
  }

  // ---------------------------------------------------------------------------
  // the event loop
  // ---------------------------------------------------------------------------

  /** One event. A mouse-down reaches the background handler first and the
      node handler second, as they were registered. */
  function Step(b: Board, e: Event): (r: Board)
    requires ValidView(b.view)
    ensures ValidView(r.view)
  {
    match e
    case MouseDown(target, button, x, y) => NodeMouseDown(BoardMouseDown(b, target, button, x, y), target, button)
    case ContextMenu(target) => NodeContextMenu(b, target)
    case MouseMove(x, y, mx, my) => WindowMouseMove(b, x, y, mx, my)
    case MouseUp(target) => WindowMouseUp(b, target)
    case Wheel(deltaY, x, y) => BoardWheel(b, deltaY, x, y)
    case Click(target) => BoardClick(b, target)
  }

  /** A sequence of events, in order. */
  function Run(b: Board, es: seq<Event>): (r: Board)
    requires ValidView(b.view)
    ensures ValidView(r.view)
    decreases |es|
  {
    if |es| == 0 then b else Run(Step(b, es[0]), es[1..])
  }

  /** Whatever happened before, a mouse-up leaves the board in no mode. */
  lemma {:induction false} RunEndingInMouseUpIsIdle(b: Board, es: seq<Event>, t: Target)
    requires ValidView(b.view)
    ensures var r := Run(b, es + [MouseUp(t)]);
            !r.view.panning && !r.drag.dragging && !r.link.linking
            && r.drag.draggedId.None? && r.link.sourceId.None?
    decreases |es|
  {
    if |es| == 0 {
      assert es + [MouseUp(t)] == [MouseUp(t)];
    } else {
      assert (es + [MouseUp(t)])[1..] == es[1..] + [MouseUp(t)];
      RunEndingInMouseUpIsIdle(Step(b, es[0]), es[1..], t);
    }
  }

  /** The board's own events never create a self-link: a board without one
      keeps that property through any sequence of events. */
  lemma {:induction false} RunKeepsNoSelfLinks(b: Board, es: seq<Event>)
    requires ValidView(b.view)
    requires NoSelfLinks(b.st.nodes)
    ensures NoSelfLinks(Run(b, es).st.nodes)
    decreases |es|
  {
    if |es| > 0 {
      var next := Step(b, es[0]);
      match es[0] {
        case MouseUp(t) =>
          if b.link.linking && t.OnNode? {
            DragLinkInvariants(b.st, b.link.sourceId, t.id);
          }
        case MouseMove(x, y, mx, my) =>
          if !b.link.linking && b.drag.dragging && b.drag.draggedId.Some? {
            var id := b.drag.draggedId.value;
            if FindIndex(b.st.nodes, id).Some? {
              assert forall j :: 0 <= j < |next.st.nodes| ==>
                next.st.nodes[j].id == b.st.nodes[j].id && next.st.nodes[j].links == b.st.nodes[j].links;
            }
          }
        case _ =>
      }
      RunKeepsNoSelfLinks(next, es[1..]);
    }
  }
}
