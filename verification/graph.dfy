/** The board's data model: a node record and lookups over the node list.

    Nodes live in a sequence in insertion order. Each node keeps its outgoing
    links as a map from target id to weight; the graph is the union of all
    nodes' link maps. Ids are plain strings and nothing here assumes they are
    unique: a lookup by id finds the FIRST node carrying it, as JavaScript's
    `Array.prototype.find` does. */
module Graph {
  import opened Util

  type Id = string

  datatype Node = Node(
    id: Id,
    name: string,
    commit: int,
    x: real,
    y: real,
    links: map<Id, int>,
    activation: real,
    color: string,
    starred: bool,
    acute: bool)

  /** The set of ids carried by some node. */
  function Ids(nodes: seq<Node>): set<Id>
  {
    set i | 0 <= i < |nodes| :: nodes[i].id
  }

  /** The board's lookup by id, as an index: the first node with that id, or
      nothing when no node carries it. */
  function FindIndex(nodes: seq<Node>, id: Id): (r: Option<nat>)
    ensures r.Some? ==> r.value < |nodes| && nodes[r.value].id == id
                        && forall j :: 0 <= j < r.value ==> nodes[j].id != id
    ensures r.None? ==> id !in Ids(nodes)
  {
    if |nodes| == 0 then None
    else if nodes[0].id == id then Some(0)
    else match FindIndex(nodes[1..], id)
      case None =>
        assert Ids(nodes) == {nodes[0].id} + Ids(nodes[1..]) by {
          forall t | t in Ids(nodes) ensures t in {nodes[0].id} + Ids(nodes[1..]) {
            var i :| 0 <= i < |nodes| && nodes[i].id == t;
            if i > 0 { assert nodes[1..][i - 1] == nodes[i]; }
          }
        }
        None
      case Some(i) => Some(i + 1)
  }

  /** Whether some node carries the id. */
  predicate HasNode(nodes: seq<Node>, id: Id) {
    FindIndex(nodes, id).Some?
  }

  lemma {:induction false} HasNodeIsMembership(nodes: seq<Node>, id: Id)
    ensures HasNode(nodes, id) <==> id in Ids(nodes)
  {
    if id in Ids(nodes) {
      var i :| 0 <= i < |nodes| && nodes[i].id == id;
    }
  }

  /** JavaScript truthiness of `n.links[t]` for a numeric weight: the key is
      present and the weight is not 0. A link of weight 0 exists as a key but
      reads as "no link" in every `if (n.links[t])` test of the source. */
  predicate IsLinked(n: Node, t: Id) {
    t in n.links && n.links[t] != 0
  }

  /** Two node lists that carry the same ids in the same order. */
  predicate SameIds(a: seq<Node>, b: seq<Node>) {
    |a| == |b| && forall i :: 0 <= i < |a| ==> a[i].id == b[i].id
  }

  /** A lookup by id only depends on the ids in order. */
  lemma {:induction false} FindIndexSameIds(a: seq<Node>, b: seq<Node>, id: Id)
    requires SameIds(a, b)
    ensures FindIndex(a, id) == FindIndex(b, id)
  {
    if |a| > 0 && a[0].id != id {
      FindIndexSameIds(a[1..], b[1..], id);
    }
  }
}
