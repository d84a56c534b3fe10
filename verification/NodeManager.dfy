/** The node manager: node objects shared by pointer, changed in place under the manager's lock. */
module NodeManagers {
  import opened Common
  import opened Counting
  import opened Nodes

  class Node {
    const linodeID: int
    const name: string
    const createdAt: int
    var ipv4: string
    var state: State
    var readyAt: Option<int>
    var drainLocked: bool

    ghost function Info(): NodeInfo
      reads this
    {
      NodeInfo(name, ipv4, state, createdAt, readyAt, drainLocked)
    }

    constructor (linodeID: int, name: string, now: int)
      ensures this.linodeID == linodeID && Info() == Fresh(name, now)
    {
      this.linodeID := linodeID;
      this.name := name;
      this.createdAt := now;
      ipv4, state, readyAt, drainLocked := "", Provisioning, None, false;
    }

    method Stamp(now: int)
      modifies this`readyAt
      ensures readyAt == Some(now)
    {
      readyAt := Some(now);
    }

    method Enter(to: State, now: int)
      modifies this`state, this`readyAt
      ensures Info() == Nodes.Enter(old(Info()), to, now)
    {
      state := to;
      if to == Ready {
        Stamp(now);
      }
    }
  }

  class NodeManager {
    var nodes: map<int, Node>
    const maxNodes: int
    ghost var view: NodeMap

    /** Each object is filed under its own id, so no object is filed twice; `view` is what they hold. */
    ghost predicate Valid()
      reads this, nodes.Values
    {
      && view.Keys == nodes.Keys
      && forall id :: id in nodes ==> nodes[id].linodeID == id && nodes[id].Info() == view[id]
    }

    /** Every node object now filed was filed before or is new. */
    twostate predicate OnlyNew()
      reads this
    {
      forall n :: n in nodes.Values ==> n in old(nodes.Values) || fresh(n)
    }

    constructor (maxNodes: int)
      ensures Valid() && view == map[] && nodes == map[] && this.maxNodes == maxNodes
    {
      this.maxNodes := maxNodes;
      nodes, view := map[], map[];
    }

    method Add(linodeID: int, name: string, now: int) returns (ok: bool)
      requires Valid()
      modifies this
      ensures Valid() && OnlyNew()
      ensures ok == Try(old(view), maxNodes, AddNode(linodeID, name), now).Some?
      ensures view == After(old(view), maxNodes, AddNode(linodeID, name), now)
      ensures !ok ==> nodes == old(nodes)
      ensures ok ==> linodeID in nodes && fresh(nodes[linodeID]) && nodes == old(nodes)[linodeID := nodes[linodeID]]
    {
      assert |view| == |view.Keys| == |nodes.Keys| == |nodes|;
      if |nodes| >= maxNodes {
        return false;
      }
      if linodeID in nodes {
        return false;
      }
      var node := new Node(linodeID, name, now);
      assert forall id :: id in nodes ==> nodes[id] != node;
      nodes := nodes[linodeID := node];
      view := view[linodeID := Fresh(name, now)];
      return true;
    }

    method Transition(linodeID: int, to: State, now: int) returns (ok: bool)
      requires Valid()
      modifies this`view, nodes.Values
      ensures Valid() && nodes == old(nodes)
      ensures ok == Try(old(view), maxNodes, TransitionNode(linodeID, to), now).Some?
      ensures view == After(old(view), maxNodes, TransitionNode(linodeID, to), now)
    {
      if linodeID !in nodes {
        return false;
      }
      var node := nodes[linodeID];
      if node.state == to {
        if to == Ready && node.readyAt == None {
          node.Stamp(now);
          view := view[linodeID := view[linodeID].(readyAt := Some(now))];
        }
        return true;
      }
      if to in Allowed(node.state) {
        node.Enter(to, now);
        view := view[linodeID := Enter(view[linodeID], to, now)];
        return true;
      }
      return false;
    }

    method Remove(linodeID: int)
      requires Valid()
      modifies this
      ensures Valid() && OnlyNew()
      ensures view == After(old(view), maxNodes, RemoveNode(linodeID), 0)
      ensures nodes == old(nodes) - {linodeID} && nodes.Values <= old(nodes.Values)
    {
      nodes, view := nodes - {linodeID}, view - {linodeID};
    }

    method SetIP(linodeID: int, ip: string) returns (ok: bool)
      requires Valid()
      modifies this`view, nodes.Values
      ensures Valid() && nodes == old(nodes)
      ensures ok == (linodeID in nodes)
      ensures view == After(old(view), maxNodes, SetNodeIP(linodeID, ip), 0)
    {
      if linodeID !in nodes {
        return false;
      }
      nodes[linodeID].ipv4 := ip;
      view := view[linodeID := view[linodeID].(ipv4 := ip)];
      return true;
    }

    method SetLock(linodeID: int, locked: bool) returns (ok: bool)
      requires Valid()
      modifies this`view, nodes.Values
      ensures Valid() && nodes == old(nodes)
      ensures ok == (linodeID in nodes)
      ensures view == After(old(view), maxNodes, SetDrainLock(linodeID, locked), 0)
    {
      if linodeID !in nodes {
        return false;
      }
      nodes[linodeID].drainLocked := locked;
      view := view[linodeID := view[linodeID].(drainLocked := locked)];
      return true;
    }

    /** The nodes in a state, each once, in whatever order the map yields them. */
    method NodesByState(s: State) returns (result: seq<Node>)
      requires Valid()
      ensures forall i :: 0 <= i < |result| ==>
        result[i].linodeID in nodes && nodes[result[i].linodeID] == result[i] && result[i].state == s
      ensures forall i, j :: 0 <= i < j < |result| ==> result[i] != result[j]
      ensures forall id :: id in nodes && nodes[id].state == s ==> nodes[id] in result
    {
      result := [];
      var todo := nodes.Keys;
      while todo != {}
        invariant todo <= nodes.Keys
        invariant forall i :: 0 <= i < |result| ==>
          && result[i].linodeID in nodes - todo && nodes[result[i].linodeID] == result[i]
          && result[i].state == s
        invariant forall i, j :: 0 <= i < j < |result| ==> result[i] != result[j]
        invariant forall id :: id in nodes && id !in todo && nodes[id].state == s ==> nodes[id] in result
        decreases todo
      {
        ghost var someId := Inhabited(todo);
        var id :| id in todo;
        todo := todo - {id};
        if nodes[id].state == s {
          result := result + [nodes[id]];
        }
      }
    }

    method CountActive() returns (count: nat)
      requires Valid()
      ensures count == ActiveCount(view) == |set id | id in view && view[id].state != Destroying|
    {
      count := 0;
      var todo := nodes.Keys;
      ghost var done: set<int> := {};
      while todo != {}
        invariant todo <= nodes.Keys && done == set id | id in nodes && id !in todo && IsActive(view[id])
        invariant count == |done|
        decreases todo
      {
        ghost var someId := Inhabited(todo);
        var id :| id in todo;
        todo := todo - {id};
        if nodes[id].state != Destroying {
          count := count + 1;
          done := done + {id};
        }
      }
      assert done == Matching(view, IsActive);
      CountsAre(view);
    }

    method CountReady() returns (count: nat)
      requires Valid()
      ensures count == ReadyCount(view) == |set id | id in view && view[id].state == Ready|
    {
      count := 0;
      var todo := nodes.Keys;
      ghost var done: set<int> := {};
      while todo != {}
        invariant todo <= nodes.Keys && done == set id | id in nodes && id !in todo && IsReady(view[id])
        invariant count == |done|
        decreases todo
      {
        ghost var someId := Inhabited(todo);
        var id :| id in todo;
        todo := todo - {id};
        if nodes[id].state == Ready {
          count := count + 1;
          done := done + {id};
        }
      }
      assert done == Matching(view, IsReady);
      CountsAre(view);
    }

    method IsScalingInProgress() returns (b: bool)
      requires Valid()
      ensures b == InProgress(view)
      ensures b <==> exists id :: id in nodes && nodes[id].state != Ready
    {
      var todo := nodes.Keys;
      while todo != {}
        invariant todo <= nodes.Keys
        invariant forall id :: id in nodes && id !in todo ==> nodes[id].state == Ready
        decreases todo
      {
        ghost var someId := Inhabited(todo);
        var id :| id in todo;
        todo := todo - {id};
        match nodes[id].state {
          case Provisioning | Draining | Destroying =>
            assert id in view && view[id].state in {Provisioning, Draining, Destroying};
            return true;
          case Ready =>
        }
      }
      return false;
    }
  }
}
