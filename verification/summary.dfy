/**
  The distribution summary the upload returns: the owner's items grouped
  by the agent they are assigned to, each group with its items and a
  separately accumulated count.
 */
module Summary {

  import opened ListTypes
  import opened ListStore

  /** The agents the items are assigned to, each once, in order of first appearance. */
  function AgentsOf(items: seq<ListItem>): (agents: seq<Id>)
    ensures forall a :: a in agents <==> exists x :: x in items && x.assignedTo == a
    ensures forall i, j :: 0 <= i < j < |agents| ==> agents[i] != agents[j]
  {
    if |items| == 0 then []
    else
      var prefix := AgentsOf(items[..|items| - 1]);
      var a := items[|items| - 1].assignedTo;
      assert forall x :: x in items <==> x in items[..|items| - 1] || x == items[|items| - 1] by {
        assert items == items[..|items| - 1] + [items[|items| - 1]];
      }
      if a in prefix then prefix else prefix + [a]
  }

  /** The per-group counter: one for each item assigned to the agent. */
  function CountFor(items: seq<ListItem>, agent: Id): nat
  {
    if |items| == 0 then 0
    else CountFor(items[..|items| - 1], agent) + (if items[|items| - 1].assignedTo == agent then 1 else 0)
  }

  /** The counter agrees with the number of items pushed into the group. */
  lemma {:induction false} CountMatchesItems(items: seq<ListItem>, agent: Id)
    ensures CountFor(items, agent) == |AssignedTo(items, agent)|
  {
    if |items| > 0 {
      var p := items[..|items| - 1];
      var x := items[|items| - 1];
      CountMatchesItems(p, agent);
      assert items == p + [x];
      AssignedToAppend(p, [x], agent);
      assert AssignedTo([x], agent) == (if x.assignedTo == agent then [x] else []) + AssignedTo([], agent);
    }
  }

  /** The group the aggregation builds for one agent out of the owner's items. */
  function GroupFor(owned: seq<ListItem>, agent: Id): Group
  {
    Group(agent, AssignedTo(owned, agent), CountFor(owned, agent))
  }

  /** A group is non-empty, its count is its size, and its items are what the per-agent query returns. */
  predicate GroupAgrees(store: Store, owner: Id, g: Group)
  {
    g.count == |g.items| > 0 && g.items == GetListsByAgent(store, owner, g.agent)
  }

  /** The group of an agent that has one of the owner's items agrees with the per-agent query. */
  lemma GroupForAgrees(store: Store, owner: Id, x: ListItem)
    requires x in store && x.createdBy == Some(owner)
    ensures GroupAgrees(store, owner, GroupFor(GetLists(store, owner), x.assignedTo))
  {
    var owned := GetLists(store, owner);
    CountMatchesItems(owned, x.assignedTo);
    ByAgentNarrowsOwner(store, owner, x.assignedTo);
    assert x in AssignedTo(owned, x.assignedTo);
  }

  /** One group per listed agent, in the order of the list. */
  function Groups(owned: seq<ListItem>, agents: seq<Id>): seq<Group>
  {
    seq(|agents|, i requires 0 <= i < |agents| => GroupFor(owned, agents[i]))
  }

  lemma GroupsAgree(store: Store, owner: Id, groups: seq<Group>)
    requires groups == Groups(GetLists(store, owner), AgentsOf(GetLists(store, owner)))
    ensures forall i :: 0 <= i < |groups| ==> GroupAgrees(store, owner, groups[i])
  {
    var owned := GetLists(store, owner);
    var agents := AgentsOf(owned);
    forall i | 0 <= i < |groups| ensures GroupAgrees(store, owner, groups[i]) {
      assert agents[i] in agents;
      var x :| x in owned && x.assignedTo == agents[i];
      GroupForAgrees(store, owner, x);
    }
  }

  lemma GroupsCover(store: Store, owner: Id, groups: seq<Group>)
    requires groups == Groups(GetLists(store, owner), AgentsOf(GetLists(store, owner)))
    ensures forall x :: x in store && x.createdBy == Some(owner) ==>
      exists i :: 0 <= i < |groups| && groups[i].agent == x.assignedTo
  {
    var owned := GetLists(store, owner);
    var agents := AgentsOf(owned);
    forall x | x in store && x.createdBy == Some(owner)
      ensures exists i :: 0 <= i < |groups| && groups[i].agent == x.assignedTo
    {
      assert x in owned;
      assert x.assignedTo in agents;
      var i :| 0 <= i < |agents| && agents[i] == x.assignedTo;
      assert groups[i].agent == x.assignedTo;
    }
  }

  /**
    The grouping of the owner's items by agent. Group order is the order
    in which each agent first appears among the owner's items.
   */
  function Summarize(store: Store, owner: Id): (groups: seq<Group>)
    ensures forall i :: 0 <= i < |groups| ==> GroupAgrees(store, owner, groups[i])
    ensures forall i, j :: 0 <= i < j < |groups| ==> groups[i].agent != groups[j].agent
    ensures forall x :: x in store && x.createdBy == Some(owner) ==>
      exists i :: 0 <= i < |groups| && groups[i].agent == x.assignedTo
  {
    var groups := Groups(GetLists(store, owner), AgentsOf(GetLists(store, owner)));
    GroupsAgree(store, owner, groups);
    GroupsCover(store, owner, groups);
    groups
  }

  function SumCounts(groups: seq<Group>): nat
  {
    if |groups| == 0 then 0 else SumCounts(groups[..|groups| - 1]) + groups[|groups| - 1].count
  }

  /** Sum of the counters over a list of agents. */
  function TotalOver(agents: seq<Id>, items: seq<ListItem>): nat
  {
    if |agents| == 0 then 0 else TotalOver(agents[..|agents| - 1], items) + CountFor(items, agents[|agents| - 1])
  }

  /** How often an agent occurs in a list of agents. */
  function Occurrences(agents: seq<Id>, a: Id): nat
  {
    if |agents| == 0 then 0 else Occurrences(agents[..|agents| - 1], a) + (if agents[|agents| - 1] == a then 1 else 0)
  }

  lemma {:induction false} OccurrencesDistinct(agents: seq<Id>, a: Id)
    requires forall i, j :: 0 <= i < j < |agents| ==> agents[i] != agents[j]
    ensures Occurrences(agents, a) == if a in agents then 1 else 0
  {
    if |agents| > 0 {
      var p := agents[..|agents| - 1];
      OccurrencesDistinct(p, a);
      assert agents == p + [agents[|agents| - 1]];
      if agents[|agents| - 1] == a {
        assert a !in p by {
          forall i | 0 <= i < |p| ensures p[i] != a {
            assert agents[i] != agents[|agents| - 1];
          }
        }
      }
    }
  }

  /** One more item adds one to the counter of each occurrence of its agent. */
  lemma {:induction false} TotalOverSnoc(agents: seq<Id>, items: seq<ListItem>, x: ListItem)
    ensures TotalOver(agents, items + [x]) == TotalOver(agents, items) + Occurrences(agents, x.assignedTo)
  {
    if |agents| > 0 {
      TotalOverSnoc(agents[..|agents| - 1], items, x);
      assert (items + [x])[..|items + [x]| - 1] == items;
    }
  }

  lemma {:induction false} CountAbsent(items: seq<ListItem>, agent: Id)
    requires forall x :: x in items ==> x.assignedTo != agent
    ensures CountFor(items, agent) == 0
  {
    if |items| > 0 {
      assert items[|items| - 1] in items;
      assert forall x :: x in items[..|items| - 1] ==> x in items;
      CountAbsent(items[..|items| - 1], agent);
    }
  }

  lemma TotalOverSnocAgent(agents: seq<Id>, b: Id, items: seq<ListItem>)
    ensures TotalOver(agents + [b], items) == TotalOver(agents, items) + CountFor(items, b)
  {
    assert (agents + [b])[..|agents|] == agents;
  }

  /** Counting every item once per distinct agent counts every item exactly once. */
  lemma {:induction false} TotalOverAgents(items: seq<ListItem>)
    ensures TotalOver(AgentsOf(items), items) == |items|
  {
    if |items| > 0 {
      var p := items[..|items| - 1];
      var x := items[|items| - 1];
      assert items == p + [x];
      var k := AgentsOf(p);
      TotalOverAgents(p);
      TotalOverSnoc(k, p, x);
      OccurrencesDistinct(k, x.assignedTo);
      if x.assignedTo !in k {
        TotalOverSnocAgent(k, x.assignedTo, items);
        CountAbsent(p, x.assignedTo);
        assert CountFor(items, x.assignedTo) == 1;
      }
    }
  }

  /** The counts of the first `m` groups add up to the counters of the first `m` agents. */
  lemma {:induction false} SumCountsPrefix(owned: seq<ListItem>, agents: seq<Id>, m: nat)
    requires m <= |agents|
    ensures SumCounts(Groups(owned, agents)[..m]) == TotalOver(agents[..m], owned)
  {
    if m > 0 {
      var groups := Groups(owned, agents);
      SumCountsPrefix(owned, agents, m - 1);
      assert groups[..m][..m - 1] == groups[..m - 1];
      assert agents[..m][..m - 1] == agents[..m - 1];
      assert groups[..m][m - 1] == GroupFor(owned, agents[m - 1]);
    }
  }

  /** The counts of the summary add up to the number of the owner's items, across all uploads. */
  lemma SummaryTotal(store: Store, owner: Id)
    ensures SumCounts(Summarize(store, owner)) == |GetLists(store, owner)|
  {
    var owned := GetLists(store, owner);
    var agents := AgentsOf(owned);
    var groups := Groups(owned, agents);
    assert Summarize(store, owner) == groups;
    SumCountsPrefix(owned, agents, |agents|);
    assert groups[..|agents|] == groups;
    assert agents[..|agents|] == agents;
    TotalOverAgents(owned);
  }
}
