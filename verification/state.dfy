/** The board's application state and the editing operations on it.

    The state is the node list plus the selected node id. Persistence is left
    out: the saved node list and the commit history are passed in and returned
    as values. The user's answer to the delete confirmation, the fresh id of a
    new node and today's day key are parameters. */
module BoardState {
  import opened Util
  import opened Graph
  import Acute

  datatype State = State(nodes: seq<Node>, selected: Option<Id>)

  const DefaultName: string := "새로운 목표"
  const DefaultColor: string := "#000000"

  /** A node as `addNode` creates it. */
  function NewNode(id: Id, x: real, y: real): Node
  {
    Node(id, DefaultName, 0, x, y, map[], 0.0, DefaultColor, false, false)
  }

  /** `addNode(x, y)`: appends exactly one fresh node and selects it. */
  function AddNode(st: State, id: Id, x: real, y: real): (r: State)
    ensures |r.nodes| == |st.nodes| + 1
    ensures r.nodes[..|st.nodes|] == st.nodes
    ensures var n := r.nodes[|st.nodes|];
      && n.id == id && n.x == x && n.y == y && n.name == DefaultName
      && n.commit == 0 && n.links == map[] && n.activation == 0.0
      && n.color == DefaultColor && !n.starred && !n.acute
    ensures r.selected == Some(id)
  {
    State(st.nodes + [NewNode(id, x, y)], Some(id))
  }

  // ---------------------------------------------------------------------------
  // deleteNode
  // ---------------------------------------------------------------------------

  /** The filter step of a delete: the nodes whose id differs, in order. */
  function Survivors(nodes: seq<Node>, id: Id): (r: seq<Node>)
    ensures |r| <= |nodes|
    ensures forall j :: 0 <= j < |r| ==> r[j].id != id
  {
    if |nodes| == 0 then []
    else (if nodes[0].id != id then [nodes[0]] else []) + Survivors(nodes[1..], id)
  }

  /** The survivors are exactly the nodes without the id. */
  lemma {:induction false} SurvivorsMembership(nodes: seq<Node>, id: Id)
    ensures forall n :: n in Survivors(nodes, id) <==> n in nodes && n.id != id
  {
    if |nodes| > 0 {
      SurvivorsMembership(nodes[1..], id);
      assert forall n :: n in nodes <==> n == nodes[0] || n in nodes[1..];
    }
  }

  /** The filter keeps the survivors' relative order: filtering a concatenation
      is concatenating the filtered parts. */
  lemma {:induction false} SurvivorsConcat(a: seq<Node>, b: seq<Node>, id: Id)
    ensures Survivors(a + b, id) == Survivors(a, id) + Survivors(b, id)
  {
    if |a| > 0 {
      var head := if a[0].id != id then [a[0]] else [];
      assert (a + b)[0] == a[0];
      assert (a + b)[1..] == a[1..] + b;
      SurvivorsConcat(a[1..], b, id);
      calc {
        Survivors(a + b, id);
        head + Survivors(a[1..] + b, id);
        head + (Survivors(a[1..], id) + Survivors(b, id));
        (head + Survivors(a[1..], id)) + Survivors(b, id);
        Survivors(a, id) + Survivors(b, id);
      }
    } else {
      assert a + b == b;
    }
  }

  /** With no node carrying the id, the filter keeps the list as it is. */
  lemma {:induction false} SurvivorsOfAbsent(nodes: seq<Node>, id: Id)
    requires forall j :: 0 <= j < |nodes| ==> nodes[j].id != id
    ensures Survivors(nodes, id) == nodes
  {
    if |nodes| > 0 {
      SurvivorsOfAbsent(nodes[1..], id);
    }
  }

  /** The unlink step of a delete: the link to the id is removed only when it
      is truthy (present with a non-zero weight). */
  function Unlink(n: Node, id: Id): (m: Node)
    ensures m == n.(links := m.links)
    ensures !IsLinked(m, id)
    ensures forall t :: t != id ==> (t in m.links <==> t in n.links)
    ensures forall t :: t in m.links ==> t in n.links && m.links[t] == n.links[t]
  {
    if IsLinked(n, id) then n.(links := n.links - {id}) else n
  }

  /** `deleteNode(id)`. When confirmed, the nodes carrying the id go, every
      surviving node loses its (truthy) link to the id and keeps everything
      else, the survivors keep their order, and the selection is cleared. A
      declined confirmation changes nothing. */
  function DeleteNode(st: State, id: Id, confirmed: bool): (r: State)
    ensures !confirmed ==> r == st
    ensures confirmed ==> r.selected == None
    ensures confirmed ==> id !in Ids(r.nodes)
    ensures confirmed ==> forall j :: 0 <= j < |r.nodes| ==> !IsLinked(r.nodes[j], id)
    ensures confirmed ==>
      var s := Survivors(st.nodes, id);
      && |r.nodes| == |s|
      && forall j :: 0 <= j < |s| ==>
           && r.nodes[j] == s[j].(links := r.nodes[j].links)
           && (forall t :: t != id ==> (t in r.nodes[j].links <==> t in s[j].links))
           && (forall t :: t in r.nodes[j].links ==> t in s[j].links && r.nodes[j].links[t] == s[j].links[t])
  {
    if !confirmed then st
    else
      var s := Survivors(st.nodes, id);
      var kept := seq(|s|, j requires 0 <= j < |s| => Unlink(s[j], id));
      SurvivorsMembership(st.nodes, id);
      assert forall j :: 0 <= j < |s| ==> s[j] in s;
      State(kept, None)
  }

  /** A link of weight 0 to the deleted id is falsy, so the delete keeps it,
      with its weight. */
  lemma {:induction false} ZeroWeightLinkSurvivesDelete(st: State, id: Id, j: nat)
    requires j < |Survivors(st.nodes, id)|
    requires var n := Survivors(st.nodes, id)[j]; id in n.links && n.links[id] == 0
    ensures var r := DeleteNode(st, id, true);
            j < |r.nodes| && id in r.nodes[j].links && r.nodes[j].links[id] == 0
  {
    var s := Survivors(st.nodes, id);
    assert DeleteNode(st, id, true).nodes[j] == Unlink(s[j], id);
  }

  /** All link weights are non-zero, as every weight the board itself writes is
      (new links get 1, cycling yields 1, 2 or 3). */
  predicate NonZeroWeights(nodes: seq<Node>)
  {
    forall j, t :: 0 <= j < |nodes| && t in nodes[j].links ==> nodes[j].links[t] != 0
  }

  /** With non-zero weights, a confirmed delete leaves no link keyed by the
      deleted id anywhere. A zero-weight link is falsy in the source's test and
      would survive. */
  lemma {:induction false} DeleteNodeRemovesIncomingLinks(st: State, id: Id)
    requires NonZeroWeights(st.nodes)
    ensures var r := DeleteNode(st, id, true);
            forall j :: 0 <= j < |r.nodes| ==> id !in r.nodes[j].links
  {
    var r := DeleteNode(st, id, true);
    var s := Survivors(st.nodes, id);
    SurvivorsMembership(st.nodes, id);
    forall j | 0 <= j < |r.nodes| ensures id !in r.nodes[j].links {
      assert s[j] in st.nodes;
      var k :| 0 <= k < |st.nodes| && st.nodes[k] == s[j];
    }
  }

  // ---------------------------------------------------------------------------
  // per-node updates
  // ---------------------------------------------------------------------------

  /** `updateNodeContent(id, name, commit)`: the first node with the id gets the
      new name and commit, and the change old -> new commit is recorded in the
      history for today. An unknown id changes neither. */
  function UpdateNodeContent(st: State, h: Acute.History, today: Acute.Day,
                             id: Id, newName: string, newCommit: int): (r: (State, Acute.History))
    ensures FindIndex(st.nodes, id).None? ==> r == (st, h)
    ensures FindIndex(st.nodes, id).Some? ==>
      var i := FindIndex(st.nodes, id).value;
      && r.0.selected == st.selected
      && |r.0.nodes| == |st.nodes|
      && (forall j :: 0 <= j < |st.nodes| && j != i ==> r.0.nodes[j] == st.nodes[j])
      && r.0.nodes[i] == st.nodes[i].(name := newName, commit := newCommit)
      && Acute.Lookup(r.1, id, today) == Acute.Lookup(h, id, today) + (newCommit - st.nodes[i].commit)
      && (forall n, d :: (n != id || d != today) ==> Acute.Lookup(r.1, n, d) == Acute.Lookup(h, n, d))
  {
    match FindIndex(st.nodes, id)
    case None => (st, h)
    case Some(i) =>
      var prev := st.nodes[i];
      (State(st.nodes[i := prev.(name := newName, commit := newCommit)], st.selected),
       Acute.TrackCommitChange(h, id, today, prev.commit, newCommit))
  }

  /** `updateNodePosition(id, x, y)`: moves the first node with the id. */
  function UpdateNodePosition(st: State, id: Id, x: real, y: real): (r: State)
    ensures FindIndex(st.nodes, id).None? ==> r == st
    ensures FindIndex(st.nodes, id).Some? ==>
      var i := FindIndex(st.nodes, id).value;
      && r.selected == st.selected && |r.nodes| == |st.nodes|
      && (forall j :: 0 <= j < |st.nodes| && j != i ==> r.nodes[j] == st.nodes[j])
      && r.nodes[i] == st.nodes[i].(x := x, y := y)
  {
    match FindIndex(st.nodes, id)
    case None => st
    case Some(i) => State(st.nodes[i := st.nodes[i].(x := x, y := y)], st.selected)
  }

  /** A drag is a run of moves; only the last position counts. */
  lemma {:induction false} UpdateNodePositionLastWins(st: State, id: Id, x1: real, y1: real, x2: real, y2: real)
    ensures UpdateNodePosition(UpdateNodePosition(st, id, x1, y1), id, x2, y2)
            == UpdateNodePosition(st, id, x2, y2)
  {
    FindIndexSameIds(UpdateNodePosition(st, id, x1, y1).nodes, st.nodes, id);
  }

  /** `updateNodeColor(id, color)` */
  function UpdateNodeColor(st: State, id: Id, color: string): (r: State)
    ensures FindIndex(st.nodes, id).None? ==> r == st
    ensures FindIndex(st.nodes, id).Some? ==>
      var i := FindIndex(st.nodes, id).value;
      && r.selected == st.selected && |r.nodes| == |st.nodes|
      && (forall j :: 0 <= j < |st.nodes| && j != i ==> r.nodes[j] == st.nodes[j])
      && r.nodes[i] == st.nodes[i].(color := color)
  {
    match FindIndex(st.nodes, id)
    case None => st
    case Some(i) => State(st.nodes[i := st.nodes[i].(color := color)], st.selected)
  }

  /** `toggleNodeStar(id)` */
  function ToggleNodeStar(st: State, id: Id): (r: State)
    ensures FindIndex(st.nodes, id).None? ==> r == st
    ensures FindIndex(st.nodes, id).Some? ==>
      var i := FindIndex(st.nodes, id).value;
      && r.selected == st.selected && |r.nodes| == |st.nodes|
      && (forall j :: 0 <= j < |st.nodes| && j != i ==> r.nodes[j] == st.nodes[j])
      && r.nodes[i] == st.nodes[i].(starred := !st.nodes[i].starred)
  {
    match FindIndex(st.nodes, id)
    case None => st
    case Some(i) => State(st.nodes[i := st.nodes[i].(starred := !st.nodes[i].starred)], st.selected)
  }

  /** `toggleNodeAcute(id)` */
  function ToggleNodeAcute(st: State, id: Id): (r: State)
    ensures FindIndex(st.nodes, id).None? ==> r == st
    ensures FindIndex(st.nodes, id).Some? ==>
      var i := FindIndex(st.nodes, id).value;
      && r.selected == st.selected && |r.nodes| == |st.nodes|
      && (forall j :: 0 <= j < |st.nodes| && j != i ==> r.nodes[j] == st.nodes[j])
      && r.nodes[i] == st.nodes[i].(acute := !st.nodes[i].acute)
  {
    match FindIndex(st.nodes, id)
    case None => st
    case Some(i) => State(st.nodes[i := st.nodes[i].(acute := !st.nodes[i].acute)], st.selected)
  }

  /** Toggling a flag twice restores the state. */
  lemma {:induction false} ToggleTwiceRestores(st: State, id: Id)
    ensures ToggleNodeStar(ToggleNodeStar(st, id), id) == st
    ensures ToggleNodeAcute(ToggleNodeAcute(st, id), id) == st
  {
    FindIndexSameIds(ToggleNodeStar(st, id).nodes, st.nodes, id);
    FindIndexSameIds(ToggleNodeAcute(st, id).nodes, st.nodes, id);
  }

  /** `updateLink(sourceId, targetId, weight)`: with a null or undefined weight
      (`None`) the first node with the source id loses its link to the target,
      otherwise the link is set to the weight. No other link and no other node
      changes; an unknown source id changes nothing. */
  function UpdateLink(st: State, sourceId: Id, targetId: Id, weight: Option<int>): (r: State)
    ensures FindIndex(st.nodes, sourceId).None? ==> r == st
    ensures FindIndex(st.nodes, sourceId).Some? ==>
      var i := FindIndex(st.nodes, sourceId).value;
      && r.selected == st.selected && |r.nodes| == |st.nodes|
      && (forall j :: 0 <= j < |st.nodes| && j != i ==> r.nodes[j] == st.nodes[j])
      && r.nodes[i] == st.nodes[i].(links := r.nodes[i].links)
      && (weight.None? ==> targetId !in r.nodes[i].links)
      && (weight.Some? ==> targetId in r.nodes[i].links && r.nodes[i].links[targetId] == weight.value)
      && (forall t :: t != targetId ==>
            (t in r.nodes[i].links <==> t in st.nodes[i].links)
            && (t in r.nodes[i].links ==> r.nodes[i].links[t] == st.nodes[i].links[t]))
  {
    match FindIndex(st.nodes, sourceId)
    case None => st
    case Some(i) =>
      var n := st.nodes[i];
      var links := if weight.None? then n.links - {targetId} else n.links[targetId := weight.value];
      State(st.nodes[i := n.(links := links)], st.selected)
  }

  /** Setting a link and then removing it is the same as removing it. */
  lemma {:induction false} UpdateLinkSetThenRemove(st: State, sourceId: Id, targetId: Id, w: int)
    ensures UpdateLink(UpdateLink(st, sourceId, targetId, Some(w)), sourceId, targetId, None)
            == UpdateLink(st, sourceId, targetId, None)
  {
    FindIndexSameIds(UpdateLink(st, sourceId, targetId, Some(w)).nodes, st.nodes, sourceId);
    match FindIndex(st.nodes, sourceId)
    case None =>
    case Some(i) =>
      var n := st.nodes[i];
      assert n.links[targetId := w] - {targetId} == n.links - {targetId};
  }

  // ---------------------------------------------------------------------------
  // initializeState
  // ---------------------------------------------------------------------------

  /** A node as read back from storage: fields added in later versions of the
      board (colour, flags, activation) may be undefined (`None`). */
  datatype SavedNode = SavedNode(
    id: Id,
    name: string,
    commit: int,
    x: real,
    y: real,
    links: map<Id, int>,
    activation: Option<real>,
    color: Option<string>,
    starred: Option<bool>,
    acute: Option<bool>)

  function OrDefault<T>(v: Option<T>, d: T): T
  {
    if v.Some? then v.value else d
  }

  /** The back-fill loop of `initializeState` for one node: every undefined
      field gets its default, every defined field keeps its value. */
  function BackFill(s: SavedNode): (n: Node)
    ensures n.id == s.id && n.name == s.name && n.commit == s.commit
    ensures n.x == s.x && n.y == s.y && n.links == s.links
    ensures n.color == (if s.color.Some? then s.color.value else DefaultColor)
    ensures n.starred == (s.starred.Some? && s.starred.value)
    ensures n.acute == (s.acute.Some? && s.acute.value)
    ensures n.activation == (if s.activation.Some? then s.activation.value else 0.0)
  {
    Node(s.id, s.name, s.commit, s.x, s.y, s.links, OrDefault(s.activation, 0.0),
         OrDefault(s.color, DefaultColor), OrDefault(s.starred, false), OrDefault(s.acute, false))
  }

  /** How a node is written to storage: every field defined. */
  function Saved(n: Node): SavedNode
  {
    SavedNode(n.id, n.name, n.commit, n.x, n.y, n.links, Some(n.activation),
              Some(n.color), Some(n.starred), Some(n.acute))
  }

  /** A stored node reads back as itself. */
  lemma {:induction false} BackFillOfSaved(n: Node)
    ensures BackFill(Saved(n)) == n
  {
  }

  /** The three seed nodes of an empty board, centred on a 10000 x 10000 canvas. */
  function SeedNodes(): seq<SavedNode>
  {
    [ SavedNode("app_dev", "App Develop", 50, 4850.0, 5000.0, map["ai_theory" := 1],
                Some(0.0), Some(DefaultColor), Some(false), Some(false)),
      SavedNode("ai_theory", "AI Theory", 30, 5150.0, 4950.0, map["app_dev" := 2],
                Some(0.0), Some(DefaultColor), Some(false), Some(false)),
      SavedNode("exercise", "운동하기", 80, 5000.0, 5200.0, map["app_dev" := 1],
                Some(0.0), Some(DefaultColor), Some(false), Some(false)) ]
  }

  /** `initializeState`: a non-empty saved list is kept, otherwise (nothing saved,
      or an empty list) the three seed nodes are used; then every node is
      back-filled. */
  function InitializeState(saved: Option<seq<SavedNode>>): (r: seq<Node>)
    ensures var source := if saved.Some? && |saved.value| > 0 then saved.value else SeedNodes();
            && |r| == |source|
            && forall i :: 0 <= i < |r| ==> r[i] == BackFill(source[i])
    ensures |r| >= 1
  {
    var source := if saved.Some? && |saved.value| > 0 then saved.value else SeedNodes();
    seq(|source|, i requires 0 <= i < |source| => BackFill(source[i]))
  }

  /** Saving a loaded board and loading it again gives the same board. */
  lemma {:induction false} InitializeStateReloads(saved: Option<seq<SavedNode>>)
    ensures var nodes := InitializeState(saved);
            InitializeState(Some(seq(|nodes|, i requires 0 <= i < |nodes| => Saved(nodes[i])))) == nodes
  {
  }
}
