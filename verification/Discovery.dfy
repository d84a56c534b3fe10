/** The scrape-target file: an index of the ready nodes that have an address. */
module Discovery {
  import opened Nodes
  import opened NodeManagers

  datatype Exporter = Dcgm | NodeExporter | NatsAgent

  /** One file entry: the address to scrape, and its labels. */
  datatype Target = Target(ip: string, port: int, job: Exporter, linodeID: int, node: string)

  function Port(e: Exporter): int {
    match e
    case Dcgm => 9400
    case NodeExporter => 9100
    case NatsAgent => 19090
  }

  predicate Scraped(n: NodeInfo) {
    n.state == Ready && n.ipv4 != ""
  }

  /** What the file should list: every exporter of every ready node with an address. */
  ghost function Index(m: NodeMap): set<Target> {
    set id, e: Exporter | id in m && Scraped(m[id]) :: Target(m[id].ipv4, Port(e), e, id, m[id].name)
  }

  lemma IndexMember(m: NodeMap, t: Target)
    ensures t in Index(m) <==>
      && t.linodeID in m && m[t.linodeID].state == Ready && m[t.linodeID].ipv4 != ""
      && t.ip == m[t.linodeID].ipv4 && t.node == m[t.linodeID].name
      && ((t.job == Dcgm && t.port == 9400) || (t.job == NodeExporter && t.port == 9100)
          || (t.job == NatsAgent && t.port == 19090))
  {
    assert t == Target(t.ip, t.port, t.job, t.linodeID, t.node);
    assert t.port == Port(t.job) <==>
             (t.job == Dcgm && t.port == 9400) || (t.job == NodeExporter && t.port == 9100)
             || (t.job == NatsAgent && t.port == 19090);
  }

  ghost function Entries(id: int, n: NodeInfo): seq<Target> {
    [Target(n.ipv4, 9400, Dcgm, id, n.name),
     Target(n.ipv4, 9100, NodeExporter, id, n.name),
     Target(n.ipv4, 19090, NatsAgent, id, n.name)]
  }

  lemma EntriesMember(id: int, n: NodeInfo, t: Target)
    ensures t in Entries(id, n) <==> t.linodeID == id && t.ip == n.ipv4 && t.node == n.name && t.port == Port(t.job)
  {
    var e := Entries(id, n);
    if t.linodeID == id && t.ip == n.ipv4 && t.node == n.name && t.port == Port(t.job) {
      match t.job {
        case Dcgm => assert t == e[0];
        case NodeExporter => assert t == e[1];
        case NatsAgent => assert t == e[2];
      }
    }
    if t in e {
      var k :| 0 <= k < |e| && e[k] == t;
      assert k == 0 || k == 1 || k == 2;
    }
  }

  /** Two tables whose scraped nodes agree on address and name have the same index. */
  lemma SameIndex(m: NodeMap, n: NodeMap)
    requires forall id :: (id in m && Scraped(m[id])) <==> (id in n && Scraped(n[id]))
    requires forall id :: id in m && Scraped(m[id]) ==> m[id].ipv4 == n[id].ipv4 && m[id].name == n[id].name
    ensures Index(m) == Index(n)
  {
    forall t ensures t in Index(m) <==> t in Index(n) {
      IndexMember(m, t);
      IndexMember(n, t);
    }
  }

  /** And tables that differ on one scraped node do not. */
  lemma DifferentIndex(m: NodeMap, n: NodeMap, id: int)
    requires id in m && Scraped(m[id])
    requires !(id in n && Scraped(n[id]) && n[id].ipv4 == m[id].ipv4 && n[id].name == m[id].name)
    ensures Index(m) != Index(n)
  {
    var t := Target(m[id].ipv4, Port(Dcgm), Dcgm, id, m[id].name);
    IndexMember(m, t);
    IndexMember(n, t);
  }

  /** A list without repetitions, seen as a multiset, is its set of elements. */
  lemma {:induction false} DistinctListIsSet<T>(s: seq<T>, elems: set<T>)
    requires forall i, j :: 0 <= i < j < |s| ==> s[i] != s[j]
    requires forall x :: x in s <==> x in elems
    ensures multiset(s) == multiset(elems)
  {
    if s == [] {
      assert elems == {};
    } else {
      var last := s[|s| - 1];
      var init := s[..|s| - 1];
      assert s == init + [last];
      forall x ensures x in init <==> x in elems - {last} {
        if x in init {
          var i :| 0 <= i < |init| && init[i] == x;
          assert s[i] == x && x in s;
        }
        if x in elems - {last} {
          var i :| 0 <= i < |s| && s[i] == x;
          assert init[i] == x;
        }
      }
      DistinctListIsSet(init, elems - {last});
      assert multiset(elems) == multiset(elems - {last}) + multiset{last};
    }
  }

  /** The targets to write, in whatever order the node map is iterated: the index, each entry once. */
  method BuildTargets(nm: NodeManager) returns (targets: seq<Target>)
    requires nm.Valid()
    ensures multiset(targets) == multiset(Index(nm.view))
  {
    var nodes := nm.NodesByState(Ready);
    targets := [];
    ghost var index := Index(nm.view);
    ghost var done: set<int> := {};
    for i := 0 to |nodes|
      invariant done == set k | 0 <= k < i :: nodes[k].linodeID
      invariant forall k, l :: 0 <= k < l < |targets| ==> targets[k] != targets[l]
      invariant forall t :: t in targets <==> t in index && t.linodeID in done
    {
      var node := nodes[i];
      ghost var before := targets;
      assert node.linodeID !in done;
      assert nm.view[node.linodeID] == node.Info();
      if node.ipv4 != "" {
        targets := targets + [Target(node.ipv4, 9400, Dcgm, node.linodeID, node.name)];
        targets := targets + [Target(node.ipv4, 9100, NodeExporter, node.linodeID, node.name)];
        targets := targets + [Target(node.ipv4, 19090, NatsAgent, node.linodeID, node.name)];
      }
      done := done + {node.linodeID};
      ghost var added := if node.ipv4 != "" then Entries(node.linodeID, node.Info()) else [];
      assert targets == before + added;
      forall t ensures t in targets <==> t in index && t.linodeID in done {
        IndexMember(nm.view, t);
        EntriesMember(node.linodeID, node.Info(), t);
        assert t in before <==> t in index && t.linodeID in done - {node.linodeID};
        assert t in targets <==> t in before || t in added;
      }
    }
    forall t | t in index ensures t.linodeID in done {
      IndexMember(nm.view, t);
      assert nm.nodes[t.linodeID] in nodes;
    }
    DistinctListIsSet(targets, index);
  }
}
