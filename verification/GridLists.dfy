/** The lists of objects that stand in one cell of the grid (gaoi.c), linked both ways and changed in place. */
module GridLists {

  class Entity {
    var prev: Entity?
    var next: Entity?

    constructor ()
      ensures prev == null && next == null
    {
      prev, next := null, null;
    }
  }

  ghost predicate Distinct(s: seq<Entity>) {
    forall i, j | 0 <= i < j < |s| :: s[i] != s[j]
  }

  /** The objects of one kind in a cell. For players the cell also knows the last one. */
  class List {
    const players: bool
    var root: Entity?
    var tail: Entity?
    ghost var members: seq<Entity>

    ghost predicate Valid()
      reads this, members
    {
      Distinct(members) &&
      root == (if members == [] then null else members[0]) &&
      (players ==> tail == if members == [] then null else members[|members| - 1]) &&
      forall i | 0 <= i < |members| :: LinkedAt(i)
    }

    ghost predicate LinkedAt(i: nat)
      requires i < |members|
      reads this, members
    {
      members[i].prev == (if i == 0 then null else members[i - 1]) &&
      members[i].next == if i == |members| - 1 then null else members[i + 1]
    }

    constructor (players: bool)
      ensures Valid() && members == [] && this.players == players
    {
      this.players := players;
      root, tail, members := null, null, [];
    }

    /** LinkAoiObject */
    method Link(obj: Entity)
      requires Valid() && obj !in members
      modifies this, obj, members
      ensures Valid() && members == [obj] + old(members)
    {
      obj.prev, obj.next := null, null;
      if root != null {
        obj.next := root;
        root.prev := obj;
      } else if players {
        tail := obj;
      }
      root := obj;
      members := [obj] + members;
      forall i | 0 <= i < |members|
        ensures LinkedAt(i)
      {
        if i > 0 {
          assert members[i] == old(members)[i - 1] && old(LinkedAt(i - 1));
        }
      }
    }

    /** UnlinkAoiObject, from anywhere in the list */
    method Unlink(obj: Entity, ghost at: nat)
      requires Valid() && at < |members| && members[at] == obj
      modifies this, members
      ensures Valid() && members == old(members)[..at] + old(members)[at + 1..]
      ensures obj !in members && obj.prev == null && obj.next == null
    {
      ghost var was := members;
      assert LinkedAt(at);
      var pprev, pnext := obj.prev, obj.next;
      obj.prev, obj.next := null, null;
      if pprev != null {
        pprev.next := pnext;
      }
      if pnext != null {
        pnext.prev := pprev;
      }
      if players && obj == tail {
        tail := pprev;
      }
      if root == obj {
        root := pnext;
      }
      members := was[..at] + was[at + 1..];
      forall i | 0 <= i < |members|
        ensures LinkedAt(i)
      {
        ghost var j := if i < at then i else i + 1;
        assert members[i] == was[j] && old(LinkedAt(j));
      }
    }

    /** LoopChangelinkAoiObject: the last player becomes the first. */
    method Rotate()
      requires Valid() && players
      modifies this, members
      ensures Valid()
      ensures members == if old(members) == [] then [] else [old(members)[|old(members)| - 1]] + old(members)[..|old(members)| - 1]
    {
      var obj := tail;
      if obj != null {
        ghost var last := |members| - 1;
        assert members == members[..last] + [obj];
        Unlink(obj, last);
        Link(obj);
      }
    }
  }
}
