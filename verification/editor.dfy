/** The node editor panel: the links table (weight up/down buttons and delete
    buttons) and the name/commit form.

    The panel reports edits through callbacks. A callback invocation is modelled
    as the list of its positional arguments, each a JavaScript value; how the
    receiving callback binds them is up to the receiver (see module `App`). */
module Editor {
  import opened Util
  import opened Text
  import opened Graph

  /** The JavaScript values that appear as callback arguments here. `NaN` is what
      arithmetic on an `undefined` weight produces. */
  datatype JsValue = Undefined | Str(s: string) | Num(n: int) | NaN

  // ---------------------------------------------------------------------------
  // weight cycling
  // ---------------------------------------------------------------------------

  /** The "up" button: `(w % 3) + 1` with JavaScript's truncating `%`. On the
      weights the board uses it walks 1 -> 2 -> 3 -> 1. */
  function CycleUp(w: int): (r: int)
    ensures w >= 0 ==> 1 <= r <= 3
    ensures 1 <= w <= 3 ==> r == (if w == 3 then 1 else w + 1)
  {
    JsRem(w, 3) + 1
  }

  /** The "down" button: `((w - 2 + 3) % 3) + 1`. On the weights the board uses
      it walks 3 -> 2 -> 1 -> 3. */
  function CycleDown(w: int): (r: int)
    ensures w >= -1 ==> 1 <= r <= 3
    ensures 1 <= w <= 3 ==> r == (if w == 1 then 3 else w - 1)
  {
    JsRem(w - 2 + 3, 3) + 1
  }

  /** Up and down undo each other on {1, 2, 3}, and three steps either way come
      back to the start. */
  lemma {:induction false} CycleInverse(w: int)
    requires 1 <= w <= 3
    ensures CycleDown(CycleUp(w)) == w
    ensures CycleUp(CycleDown(w)) == w
    ensures CycleUp(CycleUp(CycleUp(w))) == w
    ensures CycleDown(CycleDown(CycleDown(w))) == w
  {
    CycleStep(w);
    CycleStep(CycleUp(w));
    CycleStep(CycleDown(w));
  }

  /** One step each way from a weight in {1, 2, 3}, as plain arithmetic. */
  lemma {:induction false} CycleStep(w: int)
    requires 1 <= w <= 3
    ensures CycleUp(w) == (if w == 3 then 1 else w + 1)
    ensures CycleDown(w) == (if w == 1 then 3 else w - 1)
  {
  }

  /** Past the first step, "up" only depends on the weight modulo 3 for
      non-negative weights: any stored weight is pulled into {1, 2, 3}. */
  lemma {:induction false} CycleUpPeriodic(w: int)
    requires w >= 0
    ensures CycleUp(w + 3) == CycleUp(w)
    ensures CycleUp(w) == w % 3 + 1
  {
  }

  // ---------------------------------------------------------------------------
  // the links table
  // ---------------------------------------------------------------------------

  /** What a click in the links table landed on. */
  datatype Button =
    | WeightButton(target: Id, up: bool)
    | DeleteButton(target: Id)
    | NoButton

  /** The new weight a weight button computes from `sourceNode.links[targetId]`.
      A target that is not a key reads as `undefined` and gives `NaN`. */
  function NewWeight(n: Node, target: Id, up: bool): (r: JsValue)
    ensures target !in n.links <==> r == NaN
    ensures target in n.links && up ==> r == Num(CycleUp(n.links[target]))
    ensures target in n.links && !up ==> r == Num(CycleDown(n.links[target]))
  {
    if target !in n.links then NaN
    else if up then Num(CycleUp(n.links[target]))
    else Num(CycleDown(n.links[target]))
  }

  /** `handleLinksTableClick` as written: the callback invocations a click makes,
      zero or one, each as its argument list `(action, sourceId, targetId[,
      weight])`. Nothing happens when no node is selected or the selected id
      matches no node. */
  function LinksTableClick(nodes: seq<Node>, selected: Option<Id>, b: Button): (r: seq<seq<JsValue>>)
    ensures |r| <= 1
    ensures (selected.None? || FindIndex(nodes, selected.value).None? || b.NoButton?) <==> r == []
    ensures r != [] && b.DeleteButton? ==>
      r[0] == [Str("delete-link"), Str(selected.value), Str(b.target)]
    ensures r != [] && b.WeightButton? ==>
      && |r[0]| == 4 && r[0][..3] == [Str("update-weight"), Str(selected.value), Str(b.target)]
      && r[0][3] == NewWeight(nodes[FindIndex(nodes, selected.value).value], b.target, b.up)
  {
    if selected.None? then []
    else match FindIndex(nodes, selected.value)
      case None => []
      case Some(i) =>
        var source := nodes[i];
        match b
        case WeightButton(t, up) =>
          [[Str("update-weight"), Str(source.id), Str(t), NewWeight(source, t, up)]]
        case DeleteButton(t) => [[Str("delete-link"), Str(source.id), Str(t)]]
        case NoButton => []
  }

  /** The handler with the callback invoked as its receiver declares it,
      `(sourceId, targetId, weight)`: the action tag is dropped and a delete
      passes no weight. */
  function LinksTableClickCorrected(nodes: seq<Node>, selected: Option<Id>, b: Button): (r: seq<seq<JsValue>>)
    ensures |r| == |LinksTableClick(nodes, selected, b)|
    ensures forall k :: 0 <= k < |r| ==> r[k] == LinksTableClick(nodes, selected, b)[k][1..]
  {
    var calls := LinksTableClick(nodes, selected, b);
    seq(|calls|, k requires 0 <= k < |calls| => calls[k][1..])
  }

  /** The rows of the links table for the selected node, keyed by target id:
      the target's name and the weight. `None` when the panel is hidden because
      no node is selected. A link whose target id matches no node gets no row. */
  function LinkRows(nodes: seq<Node>, selected: Option<Id>): (r: Option<map<Id, (string, int)>>)
    ensures r.None? <==> selected.None? || FindIndex(nodes, selected.value).None?
    ensures r.Some? ==>
      var n := nodes[FindIndex(nodes, selected.value).value];
      && (forall t :: t in r.value <==> t in n.links && t in Ids(nodes))
      && (forall t :: t in r.value ==> r.value[t].1 == n.links[t])
      && (forall t :: t in r.value ==>
            FindIndex(nodes, t).Some? && r.value[t].0 == nodes[FindIndex(nodes, t).value].name)
  {
    if selected.None? then None
    else match FindIndex(nodes, selected.value)
      case None => None
      case Some(i) =>
        var n := nodes[i];
        assert forall t :: HasNode(nodes, t) <==> t in Ids(nodes) by {
          forall t ensures HasNode(nodes, t) <==> t in Ids(nodes) {
            HasNodeIsMembership(nodes, t);
          }
        }
        Some(map t | t in n.links && HasNode(nodes, t) :: (nodes[FindIndex(nodes, t).value].name, n.links[t]))
  }

  // ---------------------------------------------------------------------------
  // the form
  // ---------------------------------------------------------------------------

  /** `handleFormSubmit`: the save callback's arguments `(id, name, commit)`, sent
      only when the id field names an existing node; the commit field is read
      with `parseInt(..., 10) || 0`. */
  function SubmitForm(nodes: seq<Node>, idText: string, nameText: string, commitText: string): (r: Option<(Id, string, int)>)
    ensures r.Some? <==> idText in Ids(nodes)
    ensures r.Some? ==> r.value.0 == idText && r.value.1 == nameText
    ensures r.Some? ==> r.value.2 == ParseIntOrZero(commitText)
  {
    HasNodeIsMembership(nodes, idText);
    if FindIndex(nodes, idText).Some? then Some((idText, nameText, ParseIntOrZero(commitText)))
    else None
  }

  /** The panel fills the form with the node's id, name and commit written as a
      decimal; submitting it untouched saves the same values back. */
  lemma {:induction false} SubmitUnchangedForm(nodes: seq<Node>, i: nat)
    requires i < |nodes|
    ensures SubmitForm(nodes, nodes[i].id, nodes[i].name, IntToString(nodes[i].commit))
            == Some((nodes[i].id, nodes[i].name, nodes[i].commit))
  {
    var n := nodes[i];
    assert n.id in Ids(nodes);
    ParseIntOfNumeral("", n.commit, "");
    assert "" + IntToString(n.commit) + "" == IntToString(n.commit);
  }

  /** A commit field that is blank or does not start with a decimal integer
      saves 0. */
  lemma {:induction false} SubmitNonNumeralSavesZero(nodes: seq<Node>, id: Id, name: string, ws: string, rest: string)
    requires id in Ids(nodes)
    requires AllSpace(ws)
    requires |rest| == 0 || (!IsDigit(rest[0]) && !IsSpace(rest[0]) && rest[0] != '-' && rest[0] != '+')
    ensures SubmitForm(nodes, id, name, ws + rest) == Some((id, name, 0))
  {
    ParseIntOrZeroOfNonNumeral(ws, "", rest);
    assert ws + "" + rest == ws + rest;
  }
}
