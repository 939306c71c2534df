/**
 * The records the graph view works on: node documents, raw link documents
 * as they come out of the `links` collection, and the resolved links the
 * force layout reads. Also the "last index whose `_id` matches" search that
 * both the dictionary in `linksToD3Array` and the removal scans amount to.
 */
module Records {
  import opened Wrappers

  /** A document `_id`; Meteor assigns string ids and compares them with `===`. */
  type Id = string

  /** A node document: `_id`, `title` and `type` (here `kind`). */
  datatype Node = Node(id: Id, title: string, kind: string)

  /** A link document: its `_id`, the `_id`s of its endpoints and its `type`. */
  datatype RawLink = RawLink(id: Id, source: Id, target: Id, kind: string)

  /**
   * A link as handed to the layout: endpoints are the looked-up node
   * documents, or `None` where the lookup gave `undefined`.
   */
  datatype Link = Link(id: Id, source: Option<Node>, target: Option<Node>, kind: string)

  function NodeIds(nodes: seq<Node>): seq<Id>
  {
    seq(|nodes|, k requires 0 <= k < |nodes| => nodes[k].id)
  }

  function LinkIds(links: seq<Link>): seq<Id>
  {
    seq(|links|, k requires 0 <= k < |links| => links[k].id)
  }

  /** No two entries share an id. */
  predicate UniqueIds(ids: seq<Id>)
  {
    forall i, j :: 0 <= i < j < |ids| ==> ids[i] != ids[j]
  }

  /**
   * The index of the last entry equal to `id`, or `None` when there is none:
   * what a forward scan that overwrites its answer on every match ends with.
   */
  function LastIndex(ids: seq<Id>, id: Id): (r: Option<nat>)
    ensures r.None? <==> id !in ids
    ensures r.Some? ==> r.value < |ids| && ids[r.value] == id
    ensures r.Some? ==> forall j :: r.value < j < |ids| ==> ids[j] != id
  {
    if ids == [] then None
    else if ids[|ids| - 1] == id then Some(|ids| - 1)
    else LastIndex(ids[..|ids| - 1], id)
  }

  /** Appending an id keeps the ids unique exactly when the id is new and they were unique. */
  lemma {:induction false} AppendUniqueIff(ids: seq<Id>, id: Id)
    ensures UniqueIds(ids + [id]) <==> UniqueIds(ids) && id !in ids
  {
    var s := ids + [id];
    if UniqueIds(s) {
      forall i, j | 0 <= i < j < |ids| ensures ids[i] != ids[j] {
        assert s[i] == ids[i] && s[j] == ids[j];
      }
      forall i | 0 <= i < |ids| ensures ids[i] != id {
        assert s[i] == ids[i] && s[|ids|] == id;
      }
    }
  }
}
