/** The wiring in `main.js`: the editor's link-update callback, which hands
    its positional arguments to `updateLink`, and the console command that
    creates one node per comma-separated name.

    Two places where the code does not do what its surroundings promise are
    modelled twice, as written and corrected:
    - the editor calls the link callback with an action tag in front, so every
      argument lands one position off and the edit is lost;
    - the console command parses names but never gives them to the nodes it
      creates. */
module App {
  import opened Util
  import opened Text
  import opened Graph
  import opened BoardState
  import opened Editor
  import Script

  // ---------------------------------------------------------------------------
  // the link-update callback
  // ---------------------------------------------------------------------------

  /** Positional argument `k`; a missing argument is `undefined`. */
  function Arg(args: seq<JsValue>, k: nat): JsValue
  {
    if k < |args| then args[k] else Undefined
  }

  /** The link-update callback, which passes its first three arguments by
      position to `updateLink` as source id, target id and weight. A source that is not a
      string matches no node and changes nothing; an `undefined` weight removes
      the link and a number sets it. `None` stands for outcomes the model cannot
      hold (a non-string property key, a weight that is a string or `NaN`). */
  function OnLinkUpdate(st: State, args: seq<JsValue>): (r: Option<State>)
    ensures |args| == 3 && args[0].Str? && args[1].Str? && args[2].Num? ==>
      r == Some(UpdateLink(st, args[0].s, args[1].s, Some(args[2].n)))
    ensures |args| == 2 && args[0].Str? && args[1].Str? ==>
      r == Some(UpdateLink(st, args[0].s, args[1].s, None))
    ensures !Arg(args, 0).Str? || Arg(args, 0).s !in Ids(st.nodes) ==> r == Some(st)
  {
    var source := Arg(args, 0);
    var target := Arg(args, 1);
    var weight := Arg(args, 2);
    if !source.Str? then Some(st)
    else
      HasNodeIsMembership(st.nodes, source.s);
      if FindIndex(st.nodes, source.s).None? then Some(st)
      else if !target.Str? then None
      else match weight
        case Undefined => Some(UpdateLink(st, source.s, target.s, None))
        case Num(w) => Some(UpdateLink(st, source.s, target.s, Some(w)))
        case _ => None
  }

  /** The callback invocations of one click, applied in order. */
  function ApplyCalls(st: State, calls: seq<seq<JsValue>>): (r: Option<State>)
    ensures calls == [] ==> r == Some(st)
    ensures |calls| == 1 ==> r == OnLinkUpdate(st, calls[0])
    decreases |calls|
  {
    if |calls| == 0 then Some(st)
    else match OnLinkUpdate(st, calls[0])
      case None => None
      case Some(next) => ApplyCalls(next, calls[1..])
  }

  /** A click in the links table as the split revision wires it. */
  function EditorLinkEdit(st: State, b: Button): (r: Option<State>)
  {
    ApplyCalls(st, LinksTableClick(st.nodes, st.selected, b))
  }

  /** The same click with the callback invoked as declared. */
  function EditorLinkEditCorrected(st: State, b: Button): (r: Option<State>)
  {
    ApplyCalls(st, LinksTableClickCorrected(st.nodes, st.selected, b))
  }

  /** As written, the callback receives `"update-weight"` or `"delete-link"` as
      its source id. Unless a node carries one of those ids, no link edit made
      in the editor changes anything. */
  lemma {:induction false} EditorLinkEditIsLost(st: State, b: Button)
    requires "update-weight" !in Ids(st.nodes) && "delete-link" !in Ids(st.nodes)
    ensures EditorLinkEdit(st, b) == Some(st)
  {
  }

  /** With the arguments in place the editor does exactly what the single-file
      revision's handler does: a weight button stores the cycled weight, a
      delete button removes the link. */
  lemma {:induction false} EditorLinkEditCorrectedMatchesScript(st: State, b: Button)
    ensures EditorLinkEditCorrected(st, b) == Script.LinksTableEdit(st, b)
  {
    if st.selected.Some? && FindIndex(st.nodes, st.selected.value).Some? {
      var calls := LinksTableClick(st.nodes, st.selected, b);
      var fixed := LinksTableClickCorrected(st.nodes, st.selected, b);
      assert st.selected.value in Ids(st.nodes) by {
        HasNodeIsMembership(st.nodes, st.selected.value);
      }
      if b.WeightButton? {
        assert fixed[0] == calls[0][1..];
        assert fixed[0] == [Str(st.selected.value), Str(b.target), calls[0][3]];
      } else if b.DeleteButton? {
        assert fixed[0] == [Str(st.selected.value), Str(b.target)];
      }
    }
  }

  /** The seed board with "App Develop" selected: pressing "up" on its link to
      "AI Theory" (weight 1) leaves the weight at 1 as written, and sets it to 2
      once corrected. */
  lemma EditorLinkEditSeedExample()
    ensures var st := State(InitializeState(None), Some("app_dev"));
      && EditorLinkEdit(st, WeightButton("ai_theory", true)) == Some(st)
      && st.nodes[0].links["ai_theory"] == 1
      && var fixed := EditorLinkEditCorrected(st, WeightButton("ai_theory", true));
      && fixed.Some? && fixed.value.nodes[0].links["ai_theory"] == 2
  {
    var st := State(InitializeState(None), Some("app_dev"));
    assert st.nodes[0].id == "app_dev" && st.nodes[1].id == "ai_theory" && st.nodes[2].id == "exercise";
    assert FindIndex(st.nodes, "app_dev") == Some(0);
    assert "update-weight" !in Ids(st.nodes) && "delete-link" !in Ids(st.nodes) by {
      assert Ids(st.nodes) == {"app_dev", "ai_theory", "exercise"};
    }
    EditorLinkEditIsLost(st, WeightButton("ai_theory", true));
    EditorLinkEditCorrectedMatchesScript(st, WeightButton("ai_theory", true));
  }

  // ---------------------------------------------------------------------------
  // createNodesFromCommand
  // ---------------------------------------------------------------------------

  const NodeSpacing: real := 180.0

  /** A name list the parser could have produced: no name is empty, holds a
      comma, or starts or ends with white space. */
  predicate WellFormedNames(names: seq<string>) {
    forall k :: 0 <= k < |names| ==>
      |names[k]| > 0 && ',' !in names[k] && !IsSpace(names[k][0]) && !IsSpace(names[k][|names[k]| - 1])
  }

  /** The trimmed pieces that are not empty, in order. */
  function KeepNames(pieces: seq<string>): (r: seq<string>)
    requires forall k :: 0 <= k < |pieces| ==> ',' !in pieces[k]
    ensures |r| <= |pieces|
    ensures WellFormedNames(r)
  {
    if |pieces| == 0 then []
    else
      var t := Trim(pieces[0]);
      var rest := KeepNames(pieces[1..]);
      if |t| > 0 then
        assert ',' !in t by {
          TrimKeepsCharacters(pieces[0]);
          assert ',' !in pieces[0];
        }
        WellFormedCons(t, rest);
        [t] + rest
      else rest
  }

  /** A well-formed name in front of a well-formed list keeps it well formed. */
  lemma {:induction false} WellFormedCons(name: string, names: seq<string>)
    requires |name| > 0 && ',' !in name && !IsSpace(name[0]) && !IsSpace(name[|name| - 1])
    requires WellFormedNames(names)
    ensures WellFormedNames([name] + names)
  {
    assert forall k :: 1 <= k < |names| + 1 ==> ([name] + names)[k] == names[k - 1];
  }

  /** The command's name list: the text split at commas, each piece trimmed,
      and the empty pieces dropped. */
  function ParseNames(cmd: string): (r: seq<string>)
    ensures WellFormedNames(r)
  {
    KeepNames(Split(cmd, ','))
  }

  /** The names kept from one piece: its trim, unless that is empty. */
  lemma {:induction false} KeepNamesOfOne(p: string)
    requires ',' !in p
    ensures KeepNames([p]) == (if |Trim(p)| > 0 then [Trim(p)] else [])
  {
    assert [p][1..] == [];
  }

  /** Keeping names distributes over concatenated piece lists: each piece
      contributes on its own, in order. With `KeepNamesOfOne` this fixes the
      result for every list of pieces. */
  lemma {:induction false} KeepNamesConcat(a: seq<string>, b: seq<string>)
    requires forall k :: 0 <= k < |a| ==> ',' !in a[k]
    requires forall k :: 0 <= k < |b| ==> ',' !in b[k]
    ensures KeepNames(a + b) == KeepNames(a) + KeepNames(b)
  {
    if |a| > 0 {
      assert (a + b)[0] == a[0];
      assert (a + b)[1..] == a[1..] + b;
      KeepNamesConcat(a[1..], b);
    } else {
      assert a + b == b;
    }
  }

  /** A command of one name with white space around it parses to the bare
      name. */
  lemma {:induction false} ParseNamesOfPaddedName(name: string, ws1: string, ws2: string)
    requires WellFormedNames([name])
    requires AllSpace(ws1) && AllSpace(ws2) && ',' !in ws1 && ',' !in ws2
    ensures ParseNames(ws1 + name + ws2) == [name]
  {
    assert ',' !in name && !IsSpace(name[0]) && !IsSpace(name[|name| - 1]) by {
      assert [name][0] == name;
    }
    var s := ws1 + name + ws2;
    assert ',' !in s;
    assert Split(s, ',') == [s];
    KeepNamesOfOne(s);
    TrimOfPadded(ws1, name, ws2);
    assert KeepNames([s]) == [name];
  }

  /** A blank piece yields no name. */
  lemma {:induction false} KeepNamesOfBlank(ws: string)
    requires AllSpace(ws) && ',' !in ws
    ensures KeepNames([ws]) == []
  {
    assert Trim(ws) == [] by {
      TrimOfPadded(ws, "", "");
      assert ws + "" + "" == ws;
    }
    assert [ws][1..] == [];
  }

  /** A command of a comma between blanks parses to no name at all. */
  lemma {:induction false} ParseNamesOfBlanks(ws1: string, ws2: string)
    requires AllSpace(ws1) && AllSpace(ws2) && ',' !in ws1 && ',' !in ws2
    ensures ParseNames(ws1 + "," + ws2) == []
  {
    var cmd := ws1 + "," + ws2;
    assert Join([ws1, ws2], ',') == cmd by {
      assert [ws1, ws2][1..] == [ws2];
    }
    SplitJoin([ws1, ws2], ',');
    KeepNamesConcat([ws1], [ws2]);
    assert [ws1] + [ws2] == [ws1, ws2];
    KeepNamesOfBlank(ws1);
    KeepNamesOfBlank(ws2);
  }

  lemma {:induction false} KeepNamesOfTrimmed(names: seq<string>)
    requires WellFormedNames(names)
    ensures KeepNames(names) == names
  {
    if |names| > 0 {
      TrimOfTrimmed(names[0]);
      KeepNamesOfTrimmed(names[1..]);
    }
  }

  /** Writing well-formed names with commas between them and parsing the result
      gives the names back. */
  lemma {:induction false} ParseNamesOfJoin(names: seq<string>)
    requires |names| >= 1
    requires WellFormedNames(names)
    ensures ParseNames(Join(names, ',')) == names
  {
    SplitJoin(names, ',');
    KeepNamesOfTrimmed(names);
  }

  /** Position of the `k`-th node a command creates. */
  function Slot(baseX: real, k: nat): real
  {
    baseX + (k as real) * NodeSpacing
  }

  /** The command's node-creation loop as written, which calls `addNode` with
      a position only: `count` default nodes, the `k`-th at `baseX` plus `k`
      node spacings and at `baseY`, each `addNode` selecting the node it adds. */
  function AddNodesAsWritten(st: State, count: nat, idAt: nat -> Id, baseX: real, baseY: real): (r: State)
    ensures |r.nodes| == |st.nodes| + count
    ensures r.nodes[..|st.nodes|] == st.nodes
    ensures forall k :: 0 <= k < count ==>
      r.nodes[|st.nodes| + k] == NewNode(idAt(k), Slot(baseX, k), baseY)
    ensures count == 0 ==> r == st
    ensures count > 0 ==> r.selected == Some(idAt(count - 1))
  {
    if count == 0 then st
    else
      var prev := AddNodesAsWritten(st, count - 1, idAt, baseX, baseY);
      var r := AddNode(prev, idAt(count - 1), Slot(baseX, count - 1), baseY);
      assert r.nodes[..|st.nodes|] == prev.nodes[..|st.nodes|];
      r
  }

  /** `createNodesFromCommand` as written: the new board and the reported
      count. A command with no names adds nothing; otherwise one node per name
      is appended, every one with the default name. */
  function CreateNodesFromCommand(st: State, cmd: string, idAt: nat -> Id, baseX: real, baseY: real): (r: (State, nat))
    ensures r.1 == |ParseNames(cmd)|
    ensures |r.0.nodes| == |st.nodes| + r.1 && r.0.nodes[..|st.nodes|] == st.nodes
    ensures r.1 == 0 ==> r.0 == st
    ensures forall k :: 0 <= k < r.1 ==>
      r.0.nodes[|st.nodes| + k] == NewNode(idAt(k), Slot(baseX, k), baseY)
  {
    var names := ParseNames(cmd);
    (AddNodesAsWritten(st, |names|, idAt, baseX, baseY), |names|)
  }

  /** The loop with each node given its parsed name, as the command's output
      ("N new node(s) created") and its parsing evidently intend. */
  function AddNamedNodes(st: State, names: seq<string>, idAt: nat -> Id, baseX: real, baseY: real): (r: State)
    ensures |r.nodes| == |st.nodes| + |names|
    ensures r.nodes[..|st.nodes|] == st.nodes
    ensures forall k :: 0 <= k < |names| ==>
      r.nodes[|st.nodes| + k] == NewNode(idAt(k), Slot(baseX, k), baseY).(name := names[k])
    ensures |names| == 0 ==> r == st
    ensures |names| > 0 ==> r.selected == Some(idAt(|names| - 1))
  {
    if |names| == 0 then st
    else
      var k := |names| - 1;
      var prev := AddNamedNodes(st, names[..k], idAt, baseX, baseY);
      var r := State(prev.nodes + [NewNode(idAt(k), Slot(baseX, k), baseY).(name := names[k])], Some(idAt(k)));
      assert r.nodes[..|st.nodes|] == prev.nodes[..|st.nodes|];
      r
  }

  function CreateNamedNodesFromCommand(st: State, cmd: string, idAt: nat -> Id, baseX: real, baseY: real): (r: (State, nat))
    ensures r.1 == |ParseNames(cmd)|
    ensures |r.0.nodes| == |st.nodes| + r.1 && r.0.nodes[..|st.nodes|] == st.nodes
    ensures forall k :: 0 <= k < r.1 ==> r.0.nodes[|st.nodes| + k].name == ParseNames(cmd)[k]
  {
    var names := ParseNames(cmd);
    (AddNamedNodes(st, names, idAt, baseX, baseY), |names|)
  }

  /** Apart from the names, the corrected command builds the same board. */
  lemma {:induction false} NamedNodesDifferOnlyInName(st: State, names: seq<string>, idAt: nat -> Id, baseX: real, baseY: real)
    ensures var a := AddNodesAsWritten(st, |names|, idAt, baseX, baseY);
            var b := AddNamedNodes(st, names, idAt, baseX, baseY);
            && |a.nodes| == |b.nodes| && a.selected == b.selected
            && forall j :: 0 <= j < |a.nodes| ==> b.nodes[j] == a.nodes[j].(name := b.nodes[j].name)
  {
    var a := AddNodesAsWritten(st, |names|, idAt, baseX, baseY);
    var b := AddNamedNodes(st, names, idAt, baseX, baseY);
    forall j | 0 <= j < |a.nodes| ensures b.nodes[j] == a.nodes[j].(name := b.nodes[j].name) {
      if j < |st.nodes| {
        assert a.nodes[j] == a.nodes[..|st.nodes|][j];
        assert b.nodes[j] == b.nodes[..|st.nodes|][j];
      } else {
        var k := j - |st.nodes|;
        assert a.nodes[|st.nodes| + k] == NewNode(idAt(k), Slot(baseX, k), baseY);
        assert b.nodes[|st.nodes| + k] == NewNode(idAt(k), Slot(baseX, k), baseY).(name := names[k]);
      }
    }
  }

  /** As written, `createNodesFromCommand("Read")` adds a node named with the
      default name instead of "Read"; corrected, it is named "Read". */
  lemma {:induction false} CreateNodesDropsNames(st: State, idAt: nat -> Id, baseX: real, baseY: real)
    ensures ParseNames("Read") == ["Read"]
    ensures CreateNodesFromCommand(st, "Read", idAt, baseX, baseY).0.nodes[|st.nodes|].name == DefaultName
    ensures CreateNamedNodesFromCommand(st, "Read", idAt, baseX, baseY).0.nodes[|st.nodes|].name == "Read"
    ensures DefaultName != "Read"
  {
    assert Join(["Read"], ',') == "Read";
    ParseNamesOfJoin(["Read"]);
  }
}
