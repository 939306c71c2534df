/**
 * The data side of `GraphVis`: the live `nodes` and `links` arrays that the
 * force layout reads, and the four operations the collection observers call.
 */
module GraphVisState {
  import opened Wrappers
  import opened Records
  import opened LinkResolver
  import opened Splice

  class GraphVis {
    var nodes: seq<Node>
    var links: seq<Link>

    /** `new GraphVis(selector, nodes, links)` keeps both arrays as given. */
    constructor (nodes: seq<Node>, links: seq<Link>)
      ensures this.nodes == nodes && this.links == links
    {
      this.nodes := nodes;
      this.links := links;
    }

    /** `addNode(doc)`: push the document; duplicate ids are not checked. */
    method AddNode(doc: Node)
      modifies this
      ensures nodes == old(nodes) + [doc]
      ensures links == old(links)
    {
      nodes := nodes + [doc];
    }

    /** `addLink(doc)`: resolve the document against the current nodes and push it. */
    method AddLink(doc: RawLink)
      modifies this
      ensures links == old(links) + [ResolveLink(doc, old(nodes))]
      ensures nodes == old(nodes)
    {
      var resolved := LinksToD3Array([doc], nodes);
      links := links + [resolved[0]];
    }

    /**
     * `removeNode(doc)`: remove the last node with `doc`'s id, or the first
     * node when none has it. Links are not touched, so links to the removed
     * node stay.
     */
    method RemoveNode(doc: Node)
      modifies this
      ensures nodes == RemoveLastMatch(old(nodes), NodeIds(old(nodes)), doc.id)
      ensures links == old(links)
    {
      var iToRemove: Option<nat> := None;
      var i := 0;
      while i < |nodes|
        invariant 0 <= i <= |nodes|
        invariant iToRemove == LastIndex(NodeIds(nodes)[..i], doc.id)
      {
        assert NodeIds(nodes)[..i + 1][..i] == NodeIds(nodes)[..i];
        if nodes[i].id == doc.id {
          iToRemove := Some(i);
        }
        i := i + 1;
      }
      assert NodeIds(nodes)[..i] == NodeIds(nodes);
      var start := if iToRemove.Some? then iToRemove.value else 0;
      if start < |nodes| {
        nodes := nodes[..start] + nodes[start + 1..];
      }
    }

    /** `removeLink(doc)`: remove the last link with `doc`'s id, or the first link when none has it. */
    method RemoveLink(doc: RawLink)
      modifies this
      ensures links == RemoveLastMatch(old(links), LinkIds(old(links)), doc.id)
      ensures nodes == old(nodes)
    {
      var iToRemove: Option<nat> := None;
      var i := 0;
      while i < |links|
        invariant 0 <= i <= |links|
        invariant iToRemove == LastIndex(LinkIds(links)[..i], doc.id)
      {
        assert LinkIds(links)[..i + 1][..i] == LinkIds(links)[..i];
        if links[i].id == doc.id {
          iToRemove := Some(i);
        }
        i := i + 1;
      }
      assert LinkIds(links)[..i] == LinkIds(links);
      var start := if iToRemove.Some? then iToRemove.value else 0;
      if start < |links| {
        links := links[..start] + links[start + 1..];
      }
    }
  }

  /**
   * Two nodes, a link between them, then removal of the source node: the
   * link keeps its reference to the removed node.
   */
  method DanglingLinkScenario()
  {
    var n1 := Node("1", "first", "t1");
    var n2 := Node("2", "second", "t2");
    var g := new GraphVis([n1, n2], []);
    g.AddLink(RawLink("L1", "1", "2", "type1"));
    assert NodeIds([n1, n2]) == ["1", "2"];
    assert g.links == [Link("L1", Some(n1), Some(n2), "type1")];
    g.RemoveNode(n1);
    assert g.nodes == [n2];
    assert g.links[0].source == Some(n1) && n1 !in g.nodes;
  }

  /**
   * Removal of an id no node has takes out the first node; a second node
   * with an already used id shadows the first one for removal.
   */
  method RemovalScenario()
  {
    var n1 := Node("1", "first", "t1");
    var n2 := Node("2", "second", "t2");
    var copy := Node("1", "copy", "t1");
    var g := new GraphVis([n1, n2], []);
    g.RemoveNode(Node("9", "unknown", "t1"));
    assert NodeIds([n1, n2]) == ["1", "2"];
    assert g.nodes == [n2];
    g.AddNode(n1);
    g.AddNode(copy);
    assert NodeIds(g.nodes) == ["2", "1", "1"];
    g.RemoveNode(n1);
    assert g.nodes == [n2, n1];
  }
}
