/** The board exists in two revisions. The single-file revision keeps all of
    its logic in `script.js`. The split revision spreads the same logic over
    `state.js`, `board.js`, `editor.js`, `acute.js` and `main.js`; the other
    modules of this project model that revision.

    This module is the single-file revision (`script.js`), where the editor
    handlers write to the node list directly instead of going through the state
    operations. Its propagation is module `Activation` and its drag-to-link rule
    is `Board.DragLink`; what is modelled here are the handlers that differ in
    form from the split revision, each related to the state operation it
    duplicates. */
module Script {
  import opened Util
  import opened Text
  import opened Graph
  import opened BoardState
  import Editor
  import Acute

  /** The links-table click handler: a weight button stores the cycled weight
      in the selected node's links, a delete button removes the link. `None`
      stands for the one outcome the model cannot hold: a weight button for a
      target that is not a key stores `NaN`. */
  function LinksTableEdit(st: State, b: Editor.Button): (r: Option<State>)
    ensures st.selected.None? || FindIndex(st.nodes, st.selected.value).None? || b.NoButton? ==> r == Some(st)
    ensures st.selected.Some? && FindIndex(st.nodes, st.selected.value).Some? ==>
      var source := st.nodes[FindIndex(st.nodes, st.selected.value).value];
      && (r.None? <==> b.WeightButton? && b.target !in source.links)
      && (b.WeightButton? && b.target in source.links && b.up ==>
            r == Some(UpdateLink(st, st.selected.value, b.target, Some(Editor.CycleUp(source.links[b.target])))))
      && (b.WeightButton? && b.target in source.links && !b.up ==>
            r == Some(UpdateLink(st, st.selected.value, b.target, Some(Editor.CycleDown(source.links[b.target])))))
      && (b.DeleteButton? ==> r == Some(UpdateLink(st, st.selected.value, b.target, None)))
  {
    if st.selected.None? then Some(st)
    else match FindIndex(st.nodes, st.selected.value)
      case None => Some(st)
      case Some(i) =>
        var source := st.nodes[i];
        match b
        case WeightButton(t, up) =>
          (match Editor.NewWeight(source, t, up)
           case Num(w) => Some(State(st.nodes[i := source.(links := source.links[t := w])], st.selected))
           case _ => None)
        case DeleteButton(t) =>
          Some(State(st.nodes[i := source.(links := source.links - {t})], st.selected))
        case NoButton => Some(st)
  }

  /** On the weights the board writes, a weight edit never fails and keeps the
      edited link's weight in {1, 2, 3}. */
  lemma {:induction false} LinksTableEditKeepsWeightRange(st: State, t: Id, up: bool)
    requires st.selected.Some?
    requires FindIndex(st.nodes, st.selected.value).Some?
    requires var source := st.nodes[FindIndex(st.nodes, st.selected.value).value];
             t in source.links && 1 <= source.links[t] <= 3
    ensures var r := LinksTableEdit(st, Editor.WeightButton(t, up));
            && r.Some?
            && var k := FindIndex(r.value.nodes, st.selected.value);
            && k.Some? && 1 <= r.value.nodes[k.value].links[t] <= 3
  {
    var r := LinksTableEdit(st, Editor.WeightButton(t, up));
    FindIndexSameIds(r.value.nodes, st.nodes, st.selected.value);
  }

  /** The form's submit handler: the node named by the id field gets the name
      and the commit read with `parseInt(..., 10) || 0`. No history is kept in
      this revision. */
  function SaveForm(st: State, idText: string, nameText: string, commitText: string): (r: State)
    ensures idText !in Ids(st.nodes) ==> r == st
    ensures idText in Ids(st.nodes) ==>
      var i := FindIndex(st.nodes, idText).value;
      && r.selected == st.selected && |r.nodes| == |st.nodes|
      && (forall j :: 0 <= j < |st.nodes| && j != i ==> r.nodes[j] == st.nodes[j])
      && r.nodes[i] == st.nodes[i].(name := nameText, commit := ParseIntOrZero(commitText))
  {
    HasNodeIsMembership(st.nodes, idText);
    match FindIndex(st.nodes, idText)
    case None => st
    case Some(i) =>
      State(st.nodes[i := st.nodes[i].(name := nameText, commit := ParseIntOrZero(commitText))], st.selected)
  }

  /** The inline save does to the nodes what the split revision's form, save
      callback and `updateNodeContent` do together. */
  lemma {:induction false} SaveFormMatchesSplitRevision(st: State, h: Acute.History, today: Acute.Day,
                                     idText: string, nameText: string, commitText: string)
    ensures match Editor.SubmitForm(st.nodes, idText, nameText, commitText)
            case None => SaveForm(st, idText, nameText, commitText) == st
            case Some(call) =>
              SaveForm(st, idText, nameText, commitText) == UpdateNodeContent(st, h, today, call.0, call.1, call.2).0
  {
    HasNodeIsMembership(st.nodes, idText);
  }

  /** The node the add button pushes: no colour and no flags yet. */
  function NewNodeRecord(id: Id, x: real, y: real): (r: SavedNode)
    ensures r.id == id && r.x == x && r.y == y && r.name == DefaultName
    ensures r.commit == 0 && r.links == map[] && r.activation == Some(0.0)
    ensures r.color.None? && r.starred.None? && r.acute.None?
  {
    SavedNode(id, DefaultName, 0, x, y, map[], Some(0.0), None, None, None)
  }

  /** Once back-filled on load, a node added by this revision is the node the
      split revision's `addNode` creates, and both select it. */
  lemma {:induction false} AddNodeMatchesSplitRevision(st: State, id: Id, x: real, y: real)
    ensures State(st.nodes + [BackFill(NewNodeRecord(id, x, y))], Some(id)) == AddNode(st, id, x, y)
  {
  }
}
