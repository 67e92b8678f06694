/** One transaction as a process runs it: load, operate on the loaded copy, validate, replace the file. */
module GraphFile {
  import opened Basics
  import opened Records
  import opened Operations
  import opened Guards
  import opened TaskGraph

  /** The operation a request turns into: a FAIL computes its list, an added node starts fresh. */
  function Made(op: Op, affected: seq<Id>): Op {
    match op
    case Verify(id, j, _) => Op.Verify(id, j, affected)
    case AddNode(id, n) => Op.AddNode(id, Fresh(n.description, n.dependsOn, n.role, n.criteria, n.maxAttempts))
    case _ => op
  }

  method Perform(graph: Graph, op: Op) returns (ok: bool, affected: seq<Id>)
    requires graph.Consistent()
    modifies graph
    ensures graph.Listed()
    ensures ok ==> Accepted(old(graph.nodes), Made(op, affected))
    ensures ok ==> graph.nodes == After(old(graph.nodes), Made(op, affected)) && graph.Consistent()
    ensures !ok ==> forall list {:trigger Made(op, list)} :: !Accepted(old(graph.nodes), Made(op, list))
  {
    hide Valid, After, Mutated, Accepts, CanStart, CanSubmit, CanVerify, CanWithdraw, CanRetry, CanGrant, CanSupersede,
      CanAdd;
    affected := [];
    match op {
      case Start(id, named) => ok := graph.Start(id, named);
      case Submit(id, evidence, actor, context) => ok := graph.Submit(id, evidence, actor, context);
      case Verify(id, j, _) => ok, affected := graph.Verify(id, j);
      case Withdraw(id, who) => ok := graph.WithdrawSubmission(id, who);
      case Retry(id) => ok := graph.Retry(id);
      case GrantAttempt(id, grantor, why) => ok := graph.GrantAttempt(id, grantor, why);
      case Supersede(id, why) =>
        var released;
        ok, released := graph.Supersede(id, why);
      case AddNode(id, n) =>
        var status;
        ok, status := graph.AddNode(id, n.description, n.dependsOn, n.role, n.criteria, n.maxAttempts);
    }
  }

  /** `to_dict`: the node list in its order. */
  function Document(ids: seq<Id>, nodes: Nodes): seq<(Id, Node)>
    requires forall x | x in ids :: x in nodes
  {
    if ids == [] then []
    else Document(ids[..|ids| - 1], nodes) + [(ids[|ids| - 1], nodes[ids[|ids| - 1]])]
  }

  lemma {:induction false} DocumentLoads(ids: seq<Id>, nodes: Nodes)
    requires Distinct(ids) && forall x | x in ids :: x in nodes
    ensures IdsOf(Document(ids, nodes)) == ids
    ensures NodesOf(Document(ids, nodes)) == map x | x in ids :: nodes[x]
  {
    if ids != [] {
      var front, id := ids[..|ids| - 1], ids[|ids| - 1];
      assert ids == front + [id];
      DocumentLoads(front, nodes);
      Appended(Document(front, nodes), id, nodes[id]);
      assert forall x :: x in ids <==> x in front || x == id;
    }
  }

  lemma WholeDocument(ids: seq<Id>, nodes: Nodes)
    requires Distinct(ids) && Elements(ids) == nodes.Keys
    ensures forall x :: x in ids <==> x in nodes
    ensures (map x | x in ids :: nodes[x]) == nodes
  {
    forall x ensures x in ids <==> x in nodes {
      assert x in Elements(ids) <==> x in nodes.Keys;
    }
  }

  class GraphStore {
    const header: Header
    var document: seq<(Id, Node)>

    constructor (header: Header, document: seq<(Id, Node)>)
      ensures this.header == header && this.document == document
    {
      this.header := header;
      this.document := document;
    }

    ghost predicate Loads() reads this {
      header.Ok() && Distinct(IdsOf(document)) && Accepts(NodesOf(document))
    }

    /**
     * `mutate`. `fits` says whether the rendered text is within the limit and the replacement succeeds.
     * Whatever raises, a verdict refused after it was written to the copy included, leaves the file alone.
     */
    method Mutate(op: Op, fits: bool) returns (ok: bool, affected: seq<Id>)
      modifies this
      ensures ok ==> fits && old(Loads()) && Accepted(Promote(NodesOf(old(document))), Made(op, affected))
      ensures ok ==> Loads() && NodesOf(document) == After(Promote(NodesOf(old(document))), Made(op, affected))
      ensures !ok ==> document == old(document)
      ensures !ok && fits && Loads() ==>
        forall list {:trigger Made(op, list)} :: !Accepted(Promote(NodesOf(document)), Made(op, list))
    {
      hide Valid, Structure, RuntimeOk, Promote, After, Accepted;
      var graph := Graph.FromDocument(header, document);
      if graph == null {
        return false, [];
      }
      ok, affected := Perform(graph, op);
      if !ok {
        return false, affected;
      }
      ghost var made := graph.nodes;
      ValidIsAccepted(made);
      var valid := graph.Validate();
      if !fits {
        return false, affected;
      }
      WholeDocument(graph.ids, graph.nodes);
      DocumentLoads(graph.ids, graph.nodes);
      document := Document(graph.ids, graph.nodes);
    }
  }
}
