/** The flow-graph schema and the edits of the direct API, as values. */
module GraphSchema {
  import opened Sequences
  import Digraph

  type Id = nat

  /** A JSON value, kept as its serialised text. */
  type Json = string

  datatype PortDirection = In | Out

  datatype PortDataType = Any | Number | String | Bool | JsonObject | Array {
    predicate CompatibleWith(other: PortDataType) {
      this == Any || other == Any || this == other
    }
  }

  datatype PortDef = PortDef(
    id: Id, name: string, direction: PortDirection, dataType: PortDataType, required: bool, description: string)

  datatype Link = Link(
    id: Id, sourceNode: Id, sourcePort: Id, targetNode: Id, targetPort: Id, linkLabel: Option<string>)

  datatype Group = Group(id: Id, name: string, nodeIds: set<Id>)

  datatype NodeRelation = NodeRelation(
    id: Id, fromNode: Id, toNode: Id, kind: string, relationLabel: Option<string>, metadata: map<string, Json>)

  datatype Provenance = Provenance(
    createdBy: string, createdAtMs: nat, modifiedBy: Option<string>, modifiedAtMs: Option<nat>,
    reason: Option<string>, taskId: Option<string>)

  datatype GraphNode = GraphNode(
    id: Id, kind: string, nodeLabel: string, ports: map<Id, PortDef>, parameters: map<string, Json>,
    position: (real, real), subgraphRef: Option<Id>, provenance: Provenance)

  datatype Subgraph = Subgraph(
    id: Id, version: nat, name: string, description: string,
    exposedInputs: map<Id, PortDef>, exposedOutputs: map<Id, PortDef>, inner: Schema)

  datatype Schema = Schema(
    schemaVersion: nat, graphId: Id, dimensionId: Id,
    nodes: map<Id, GraphNode>, links: map<Id, Link>, groups: map<Id, Group>,
    subgraphs: map<Id, Subgraph>, relations: map<Id, NodeRelation>)

  datatype GraphError =
    | NodeNotFound(id: Id)
    | PortNotFound(nodeId: Id, portId: Id)
    | LinkNotFound(id: Id)
    | GroupNotFound(id: Id)
    | SubgraphNotFound(id: Id)
    | CycleDetected(cycle: seq<Id>)
    | TypeMismatch(linkId: Id, sourceType: PortDataType, targetType: PortDataType)
    | AlreadyExists(id: Id)
    | InvalidPatch(cause: GraphError)

  predicate Touches(l: Link, id: Id) {
    l.sourceNode == id || l.targetNode == id
  }

  /** Remove a node, every link that touches it and its group memberships. */
  function WithoutNode(s: Schema, id: Id): Schema {
    s.(nodes := s.nodes - {id},
       links := map k | k in s.links && !Touches(s.links[k], id) :: s.links[k],
       groups := map g | g in s.groups :: s.groups[g].(nodeIds := s.groups[g].nodeIds - {id}))
  }

  /** The (source, target) pairs of the links. */
  ghost function Edges(s: Schema): set<Digraph.Edge> {
    set k | k in s.links :: (s.links[k].sourceNode, s.links[k].targetNode)
  }

  /** Both endpoints of every link are nodes of the graph. */
  ghost predicate LinksWellFormed(s: Schema) {
    forall k :: k in s.links ==> s.links[k].sourceNode in s.nodes && s.links[k].targetNode in s.nodes
  }

  datatype Edit = AddNode(node: GraphNode) | RemoveNode(id: Id) | AddLink(link: Link) | RemoveLink(id: Id)

  /** The checks of `add_link`, in the order the code makes them. */
  function CheckLink(s: Schema, l: Link): Option<GraphError> {
    if l.sourceNode !in s.nodes then Some(NodeNotFound(l.sourceNode))
    else if l.sourcePort !in s.nodes[l.sourceNode].ports then Some(PortNotFound(l.sourceNode, l.sourcePort))
    else if l.targetNode !in s.nodes then Some(NodeNotFound(l.targetNode))
    else if l.targetPort !in s.nodes[l.targetNode].ports then Some(PortNotFound(l.targetNode, l.targetPort))
    else
      var st := s.nodes[l.sourceNode].ports[l.sourcePort].dataType;
      var tt := s.nodes[l.targetNode].ports[l.targetPort].dataType;
      if !st.CompatibleWith(tt) then Some(TypeMismatch(l.id, st, tt)) else None
  }

  /** Why a link is refused: the first thing missing, in this order, or types that differ without either being `Any`. */
  ghost predicate Refuses(s: Schema, l: Link, e: GraphError) {
    if l.sourceNode !in s.nodes then e == NodeNotFound(l.sourceNode) else
    var out := s.nodes[l.sourceNode].ports;
    if l.sourcePort !in out then e == PortNotFound(l.sourceNode, l.sourcePort) else
    if l.targetNode !in s.nodes then e == NodeNotFound(l.targetNode) else
    var into := s.nodes[l.targetNode].ports;
    if l.targetPort !in into then e == PortNotFound(l.targetNode, l.targetPort) else
    var a, b := out[l.sourcePort].dataType, into[l.targetPort].dataType;
    !a.Any? && !b.Any? && a != b && e == TypeMismatch(l.id, a, b)
  }

  lemma CheckLinkMeans(s: Schema, l: Link)
    ensures forall e :: CheckLink(s, l) == Some(e) <==> Refuses(s, l, e)
  {
  }

  function ApplyEdit(s: Schema, e: Edit): Result<Schema, GraphError> {
    match e
    case AddNode(n) => Ok(s.(nodes := s.nodes[n.id := n]))
    case RemoveNode(id) => if id in s.nodes then Ok(WithoutNode(s, id)) else Err(NodeNotFound(id))
    case AddLink(l) =>
      var bad := CheckLink(s, l);
      if bad.Some? then Err(bad.value) else Ok(s.(links := s.links[l.id := l]))
    case RemoveLink(id) => if id in s.links then Ok(s.(links := s.links - {id})) else Err(LinkNotFound(id))
  }

  /** What removing a node leaves: the other nodes, the links that do not touch it, the groups without it. */
  ghost predicate NodeRemoved(s: Schema, s': Schema, id: Id) {
    && s'.nodes.Keys == s.nodes.Keys - {id} && (forall n :: n in s'.nodes ==> s'.nodes[n] == s.nodes[n])
    && (forall k :: k in s'.links <==> k in s.links && s.links[k].sourceNode != id && s.links[k].targetNode != id)
    && (forall k :: k in s'.links ==> s'.links[k] == s.links[k])
    && s'.groups.Keys == s.groups.Keys
    && (forall g :: g in s'.groups ==> s'.groups[g] == Group(s.groups[g].id, s.groups[g].name, s.groups[g].nodeIds - {id}))
    && s'.subgraphs == s.subgraphs && s'.relations == s.relations && s'.schemaVersion == s.schemaVersion
    && s'.graphId == s.graphId && s'.dimensionId == s.dimensionId
  }

  lemma WithoutNodeMeans(s: Schema, id: Id)
    ensures NodeRemoved(s, WithoutNode(s, id), id)
  {
  }

  /** What each edit does to the directed graph: an accepted new link adds its arrow, source first. */
  lemma EditsChangeEdges(s: Schema, e: Edit)
    requires ApplyEdit(s, e).Ok?
    ensures var s' := ApplyEdit(s, e).value;
            match e
            case AddNode(n) => Edges(s') == Edges(s) && s'.nodes.Keys == s.nodes.Keys + {n.id}
            case RemoveNode(id) =>
              Edges(s') == (set d | d in Edges(s) && d.0 != id && d.1 != id) && s'.nodes.Keys == s.nodes.Keys - {id}
            case AddLink(l) => s'.nodes == s.nodes && (l.id !in s.links ==> Edges(s') == Edges(s) + {(l.sourceNode, l.targetNode)})
            case RemoveLink(id) =>
              && s'.nodes == s.nodes && id in s.links && Edges(s') + {(s.links[id].sourceNode, s.links[id].targetNode)} == Edges(s)
  {
    var s' := ApplyEdit(s, e).value;
    forall d | d in Edges(s)
      ensures exists k :: k in s.links && d == (s.links[k].sourceNode, s.links[k].targetNode)
    {
    }
    match e
    case AddNode(n) =>
    case RemoveNode(id) =>
      forall d | d in Edges(s) && d.0 != id && d.1 != id
        ensures d in Edges(s')
      {
        var k :| k in s.links && d == (s.links[k].sourceNode, s.links[k].targetNode);
        assert k in s'.links;
      }
    case AddLink(l) =>
      if l.id !in s.links {
        forall d | d in Edges(s)
          ensures d in Edges(s')
        {
          var k :| k in s.links && d == (s.links[k].sourceNode, s.links[k].targetNode);
          assert k in s'.links && s'.links[k] == s.links[k];
        }
        assert l.id in s'.links;
      }
    case RemoveLink(id) =>
      forall d | d in Edges(s) && d != (s.links[id].sourceNode, s.links[id].targetNode)
        ensures d in Edges(s')
      {
        var k :| k in s.links && d == (s.links[k].sourceNode, s.links[k].targetNode);
        assert k in s'.links;
      }
  }

  /** A run of direct edits; an edit that fails leaves the graph as it was. */
  function ApplyEdits(s: Schema, edits: seq<Edit>): Schema
    decreases |edits|
  {
    if edits == [] then s else
    var r := ApplyEdit(s, edits[0]);
    ApplyEdits(if r.Ok? then r.value else s, edits[1..])
  }

  /** No run of direct edits ever leaves a link dangling. */
  lemma {:induction false} EditsKeepLinksWellFormed(s: Schema, edits: seq<Edit>)
    requires LinksWellFormed(s)
    ensures LinksWellFormed(ApplyEdits(s, edits))
    decreases |edits|
  {
    if edits != [] {
      var r := ApplyEdit(s, edits[0]);
      EditsKeepLinksWellFormed(if r.Ok? then r.value else s, edits[1..]);
    }
  }
}
