/**
 * `linksToD3Array`: resolve raw link documents against a node list. The
 * specification is `ResolveLink` over `LastWithId`, a definition that does
 * not mention the dictionary the code builds; `IdIndexLastWins` connects the
 * two.
 */
module LinkResolver {
  import opened Wrappers
  import opened Records

  /**
   * The last node in `nodes` whose id is `id`, or `None` when no node has it.
   * With duplicate ids the later node wins.
   */
  function LastWithId(nodes: seq<Node>, id: Id): (r: Option<Node>)
    ensures r.None? <==> forall k :: 0 <= k < |nodes| ==> nodes[k].id != id
    ensures r.Some? ==> r.value.id == id
    ensures r.Some? ==> exists k :: 0 <= k < |nodes| && nodes[k] == r.value &&
                          forall j :: k < j < |nodes| ==> nodes[j].id != id
  {
    match LastIndex(NodeIds(nodes), id)
    case None =>
      assert forall k :: 0 <= k < |nodes| ==> NodeIds(nodes)[k] == nodes[k].id;
      None
    case Some(k) =>
      assert forall j :: k < j < |nodes| ==> NodeIds(nodes)[j] == nodes[j].id;
      Some(nodes[k])
  }

  /**
   * One resolved link: the raw link's id and type, with each endpoint the
   * node carrying that id (the last such) or absent when none does.
   */
  function ResolveLink(link: RawLink, nodes: seq<Node>): (r: Link)
    ensures r.id == link.id && r.kind == link.kind
    ensures r.source.Some? ==> r.source.value in nodes && r.source.value.id == link.source
    ensures r.target.Some? ==> r.target.value in nodes && r.target.value.id == link.target
    ensures r.source.None? <==> link.source !in NodeIds(nodes)
    ensures r.target.None? <==> link.target !in NodeIds(nodes)
  {
    assert forall k :: 0 <= k < |nodes| ==> NodeIds(nodes)[k] == nodes[k].id;
    Link(link.id, LastWithId(nodes, link.source), LastWithId(nodes, link.target), link.kind)
  }

  /** The dictionary `nodes[node._id] = node` leaves after visiting `nodes` in order. */
  function IdIndex(nodes: seq<Node>): map<Id, Node>
  {
    if nodes == [] then map[]
    else IdIndex(nodes[..|nodes| - 1])[nodes[|nodes| - 1].id := nodes[|nodes| - 1]]
  }

  /** Reading a dictionary entry: a missing key gives `undefined`. */
  function Lookup(dict: map<Id, Node>, id: Id): Option<Node>
  {
    if id in dict then Some(dict[id]) else None
  }

  /** Looking an id up in the dictionary finds the last node with that id. */
  lemma {:induction false} IdIndexLastWins(nodes: seq<Node>, id: Id)
    ensures Lookup(IdIndex(nodes), id) == LastWithId(nodes, id)
  {
    if nodes != [] {
      var init := nodes[..|nodes| - 1];
      IdIndexLastWins(init, id);
      assert NodeIds(nodes)[..|nodes| - 1] == NodeIds(init);
    }
  }

  /**
   * `linksToD3Array(linksCol, nodesCol)`: one resolved link per raw link, in
   * the same order; a raw link whose endpoint is unknown is still emitted.
   */
  method LinksToD3Array(linksCol: seq<RawLink>, nodesCol: seq<Node>) returns (result: seq<Link>)
    ensures |result| == |linksCol|
    ensures forall k :: 0 <= k < |linksCol| ==> result[k] == ResolveLink(linksCol[k], nodesCol)
  {
    var nodes: map<Id, Node> := map[];
    var i := 0;
    while i < |nodesCol|
      invariant 0 <= i <= |nodesCol|
      invariant nodes == IdIndex(nodesCol[..i])
    {
      assert nodesCol[..i + 1][..i] == nodesCol[..i];
      nodes := nodes[nodesCol[i].id := nodesCol[i]];
      i := i + 1;
    }
    assert nodesCol[..i] == nodesCol;
    result := [];
    var j := 0;
    while j < |linksCol|
      invariant 0 <= j <= |linksCol|
      invariant |result| == j
      invariant forall k :: 0 <= k < j ==> result[k] == ResolveLink(linksCol[k], nodesCol)
    {
      var link := linksCol[j];
      IdIndexLastWins(nodesCol, link.source);
      IdIndexLastWins(nodesCol, link.target);
      var tmp := Link(link.id, Lookup(nodes, link.source), Lookup(nodes, link.target), link.kind);
      result := result + [tmp];
      j := j + 1;
    }
  }
}
