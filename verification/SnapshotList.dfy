/** The live snapshots (db/snapshot.h): a circular doubly linked list, oldest first. */
module SnapshotList {
  import opened Rings

  class SnapshotList {
    var links: Links               // node 0 is the head
    var numbers: seq<nat>          // the sequence number of each node
    ghost var list: seq<nat>

    ghost predicate Valid()
      reads this
    {
      && Ring(links, 0, list) && |numbers| == |links.next| > 0 && InArena(list, |numbers|)
      && forall i, j :: 0 <= i < j < |list| ==> numbers[list[i]] <= numbers[list[j]]
    }

    /** The sequence numbers of the live snapshots. */
    ghost function Snapshots(): seq<nat>
      requires Valid()
      reads this
    {
      seq(|list|, i requires 0 <= i < |list| reads this => if list[i] < |numbers| then numbers[list[i]] else 0)
    }

    constructor ()
      ensures Valid() && Snapshots() == []
    {
      links, numbers, list := Links([0], [0]), [0], [];
    }

    method Empty() returns (r: bool)
      requires Valid()
      ensures r <==> list == []
    {
      assert Linked(links, 0, list, 0);
      r := links.next[0] == 0;
    }

    /** The oldest snapshot, and its number: the least of all. */
    method Oldest() returns (node: nat, number: nat)
      requires Valid() && list != []
      ensures node == list[0] && number == Snapshots()[0] && forall n :: n in Snapshots() ==> number <= n
    {
      assert Linked(links, 0, list, 0);
      node := links.next[0];
      number := numbers[node];
    }

    /** A snapshot at a number no older one is above. */
    method New(number: nat) returns (node: nat)
      requires Valid() && forall n :: n in Snapshots() ==> n <= number
      modifies this
      ensures Valid() && node !in old(list) && list == old(list) + [node]
      ensures Snapshots() == old(Snapshots()) + [number]
    {
      forall i | 0 <= i < |list| ensures numbers[list[i]] <= number {
        assert Snapshots()[i] in Snapshots();
      }
      node := |numbers|;
      ghost var before := links;
      links := Links(links.next + [0], links.prev + [0]);
      RingFrame(before, links, 0, list);
      AppendedRing(links, 0, list, node);
      links := Appended(links, 0, node);
      numbers := numbers + [number];
      list := list + [node];
    }

    /** Takes a snapshot out, wherever it is. */
    method Delete(node: nat, ghost i: nat)
      requires Valid() && i < |list| && list[i] == node
      modifies this`links, this`list
      ensures Valid() && list == Cut(old(list), i) && Snapshots() == Cut(old(Snapshots()), i)
    {
      RemovedRing(links, 0, list, i);
      links := Removed(links, node);
      list := Cut(list, i);
    }
  }

  ghost predicate InArena(list: seq<nat>, n: nat) {
    forall i :: 0 <= i < |list| ==> list[i] < n
  }
}
