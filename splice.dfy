/**
 * Removal by id as `removeNode` and `removeLink` do it: a forward scan that
 * remembers the last matching index (`undefined` when nothing matches),
 * followed by `splice(iToRemove, 1)`.
 */
module Splice {
  import opened Wrappers
  import opened Records

  /**
   * `s.splice(start, 1)` for a start that is an index or `undefined`.
   * Array.prototype.splice converts its start with ToIntegerOrInfinity, which
   * reads `undefined` as 0, and removes nothing when the start is at or past
   * the end.
   */
  function SpliceOne<T>(s: seq<T>, start: Option<nat>): seq<T>
  {
    var k := if start.Some? then start.value else 0;
    if k < |s| then s[..k] + s[k + 1..] else s
  }

  /** The sequence `s`, whose ids are `ids`, after removal of `id`. */
  function RemoveLastMatch<T>(s: seq<T>, ids: seq<Id>, id: Id): seq<T>
    requires |ids| == |s|
  {
    SpliceOne(s, LastIndex(ids, id))
  }

  /** When some entry has the id, exactly the last such entry goes and the rest keep their order. */
  lemma RemoveMatched<T>(s: seq<T>, ids: seq<Id>, id: Id)
    requires |ids| == |s| && id in ids
    ensures exists k :: 0 <= k < |s| && ids[k] == id && (forall j :: k < j < |s| ==> ids[j] != id) &&
                        RemoveLastMatch(s, ids, id) == s[..k] + s[k + 1..]
  {
    var k := LastIndex(ids, id).value;
    assert ids[k] == id;
  }

  /** When no entry has the id, the first entry goes; an empty sequence stays empty. */
  lemma RemoveUnmatched<T>(s: seq<T>, ids: seq<Id>, id: Id)
    requires |ids| == |s| && id !in ids
    ensures RemoveLastMatch(s, ids, id) == if s == [] then [] else s[1..]
  {
  }

  /**
   * Removing a present id takes one occurrence of it out of the multiset of
   * ids; removing an absent id takes out the first entry's id instead.
   */
  lemma {:induction false} RemoveIdsMultiset(ids: seq<Id>, id: Id)
    ensures id in ids ==> multiset(RemoveLastMatch(ids, ids, id)) == multiset(ids) - multiset{id}
    ensures id !in ids && ids != [] ==>
              multiset(RemoveLastMatch(ids, ids, id)) == multiset(ids) - multiset{ids[0]}
  {
    var k := match LastIndex(ids, id) case Some(i) => i case None => 0;
    if k < |ids| {
      assert ids == ids[..k] + [ids[k]] + ids[k + 1..];
    }
  }

  /** Removal keeps ids unique, and once an id is removed from unique ids it is gone. */
  lemma RemoveKeepsUnique(ids: seq<Id>, id: Id)
    requires UniqueIds(ids)
    ensures UniqueIds(RemoveLastMatch(ids, ids, id))
    ensures id !in RemoveLastMatch(ids, ids, id)
  {
  }

  /** Taking ids commutes with the splice, for nodes and for links. */
  lemma NodeIdsSplice(nodes: seq<Node>, start: Option<nat>)
    ensures NodeIds(SpliceOne(nodes, start)) == SpliceOne(NodeIds(nodes), start)
  {
  }

  lemma LinkIdsSplice(links: seq<Link>, start: Option<nat>)
    ensures LinkIds(SpliceOne(links, start)) == SpliceOne(LinkIds(links), start)
  {
  }

  /** With unique node ids, a removed node's id is no longer among the nodes, and ids stay unique. */
  lemma {:induction false} RemovedNodeGone(nodes: seq<Node>, id: Id)
    requires UniqueIds(NodeIds(nodes))
    ensures id !in NodeIds(RemoveLastMatch(nodes, NodeIds(nodes), id))
    ensures UniqueIds(NodeIds(RemoveLastMatch(nodes, NodeIds(nodes), id)))
  {
    NodeIdsSplice(nodes, LastIndex(NodeIds(nodes), id));
    RemoveKeepsUnique(NodeIds(nodes), id);
  }

  /** Removing an unknown id is not a no-op: done twice on two entries, it empties the sequence. */
  lemma RemoveUnknownTwice(ids: seq<Id>)
    requires ids == ["a", "b"]
    ensures RemoveLastMatch(ids, ids, "z") == ["b"]
    ensures RemoveLastMatch(["b"], ["b"], "z") == []
  {
  }
}
