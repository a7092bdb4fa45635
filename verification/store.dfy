/**
  The list item collection: how a distributed batch becomes stored items,
  and the two owner-scoped queries over the collection.
 */
module ListStore {

  import opened ListTypes
  import opened Distribution

  /**
    The contact stored for a row: FirstName and Phone copied, Notes
    copied when it is present and non-empty, the empty string otherwise.
   */
  function Normalize(row: Row): Contact
  {
    Contact(Cell(row, FirstNameColumn), Cell(row, PhoneColumn),
            if HasValue(row, NotesColumn) then row[NotesColumn] else "")
  }

  function NewItem(row: Row, agent: Id, admin: Id): ListItem
  {
    ListItem(Normalize(row), agent, Some(admin))
  }

  /** The items created for one agent's block, in block order. */
  function Tag(rows: seq<Row>, agent: Id, admin: Id): seq<ListItem>
  {
    seq(|rows|, j requires 0 <= j < |rows| => NewItem(rows[j], agent, admin))
  }

  /** The ids of the roster's agents. */
  function RosterIds(roster: seq<Agent>): set<Id>
  {
    set a | a in roster :: a.id
  }

  /**
    `items` are the stored form of `rows`, one for one: the row's contact,
    the admin's tag, and an agent among `ids`.
   */
  predicate Describes(items: seq<ListItem>, rows: seq<Row>, admin: Id, ids: set<Id>)
  {
    && |items| == |rows|
    && forall j :: 0 <= j < |items| ==>
         items[j].contact == Normalize(rows[j]) && items[j].createdBy == Some(admin) && items[j].assignedTo in ids
  }

  lemma TagDescribes(rows: seq<Row>, agent: Id, admin: Id)
    ensures Describes(Tag(rows, agent, admin), rows, admin, {agent})
  {
  }

  lemma DescribesAppend(a: seq<ListItem>, ra: seq<Row>, b: seq<ListItem>, rb: seq<Row>, admin: Id, ids: set<Id>, ids': set<Id>)
    requires Describes(a, ra, admin, ids) && Describes(b, rb, admin, ids')
    ensures Describes(a + b, ra + rb, admin, ids + ids')
  {
    forall j | |a| <= j < |a| + |b|
      ensures (a + b)[j] == b[j - |a|] && (ra + rb)[j] == rb[j - |a|]
    {
    }
  }

  lemma RosterIdsCons(roster: seq<Agent>)
    requires |roster| > 0
    ensures RosterIds(roster) == {roster[0].id} + RosterIds(roster[1..])
  {
    assert roster == [roster[0]] + roster[1..];
  }

  /** The items created for a distribution, agent by agent in roster order. */
  function Records(roster: seq<Agent>, distribution: seq<seq<Row>>, admin: Id): (items: seq<ListItem>)
    requires |distribution| == |roster|
    ensures Describes(items, Flatten(distribution), admin, RosterIds(roster))
  {
    if |roster| == 0 then []
    else
      var head := Tag(distribution[0], roster[0].id, admin);
      var rest := Records(roster[1..], distribution[1..], admin);
      TagDescribes(distribution[0], roster[0].id, admin);
      DescribesAppend(head, distribution[0], rest, Flatten(distribution[1..]), admin, {roster[0].id}, RosterIds(roster[1..]));
      RosterIdsCons(roster);
      head + rest
  }

  /**
    Persisting a distribution appends one item per distributed row, in
    the order the rows were joined, and leaves the items already stored
    untouched.
   */
  function Persist(store: Store, roster: seq<Agent>, distribution: seq<seq<Row>>, admin: Id): (store': Store)
    requires |distribution| == |roster|
    ensures |store'| == |store| + |Flatten(distribution)|
    ensures store'[..|store|] == store
    ensures forall j :: |store| <= j < |store'| ==>
      store'[j].contact == Normalize(Flatten(distribution)[j - |store|]) && store'[j].createdBy == Some(admin)
  {
    var added := Records(roster, distribution, admin);
    assert forall j :: |store| <= j < |store| + |added| ==> (store + added)[j] == added[j - |store|];
    store + added
  }

  /** A document saved under a schema without an owner path loses its owner tag. */
  function DropOwner(item: ListItem): ListItem
  {
    item.(createdBy := None)
  }

  /**
    Persisting as the collection's schema stores it: the schema declares
    no `createdBy` path, so strict mode drops the owner tag the controller
    sets.
   */
  function PersistAsWritten(store: Store, roster: seq<Agent>, distribution: seq<seq<Row>>, admin: Id): (store': Store)
    requires |distribution| == |roster|
    ensures |store'| == |store| + |Flatten(distribution)|
    ensures store'[..|store|] == store
    ensures forall j :: |store| <= j < |store'| ==> store'[j].createdBy == None
  {
    var added := Records(roster, distribution, admin);
    store + seq(|added|, j requires 0 <= j < |added| => DropOwner(added[j]))
  }

  /** All items of an owner, in insertion order. */
  function GetLists(store: Store, owner: Id): (items: seq<ListItem>)
    ensures |items| <= |store|
    ensures forall x :: x in items <==> x in store && x.createdBy == Some(owner)
  {
    if |store| == 0 then []
    else (if store[0].createdBy == Some(owner) then [store[0]] else []) + GetLists(store[1..], owner)
  }

  /** The items of an owner assigned to one agent, in insertion order. */
  function GetListsByAgent(store: Store, owner: Id, agent: Id): (items: seq<ListItem>)
    ensures |items| <= |store|
    ensures forall x :: x in items <==> x in store && x.assignedTo == agent && x.createdBy == Some(owner)
  {
    if |store| == 0 then []
    else
      (if store[0].assignedTo == agent && store[0].createdBy == Some(owner) then [store[0]] else [])
      + GetListsByAgent(store[1..], owner, agent)
  }

  /** The items of a sequence assigned to one agent, in order. */
  function AssignedTo(items: seq<ListItem>, agent: Id): (r: seq<ListItem>)
    ensures |r| <= |items|
    ensures forall x :: x in r <==> x in items && x.assignedTo == agent
  {
    if |items| == 0 then []
    else (if items[0].assignedTo == agent then [items[0]] else []) + AssignedTo(items[1..], agent)
  }

  /** The owner query distributes over appends: later uploads add to, never rewrite, what an owner sees. */
  lemma {:induction false} GetListsAppend(s: Store, t: Store, owner: Id)
    ensures GetLists(s + t, owner) == GetLists(s, owner) + GetLists(t, owner)
  {
    if |s| == 0 {
      assert s + t == t;
    } else {
      assert (s + t)[1..] == s[1..] + t;
      GetListsAppend(s[1..], t, owner);
    }
  }

  lemma {:induction false} GetListsByAgentAppend(s: Store, t: Store, owner: Id, agent: Id)
    ensures GetListsByAgent(s + t, owner, agent) == GetListsByAgent(s, owner, agent) + GetListsByAgent(t, owner, agent)
  {
    if |s| == 0 {
      assert s + t == t;
    } else {
      assert (s + t)[1..] == s[1..] + t;
      GetListsByAgentAppend(s[1..], t, owner, agent);
    }
  }

  /** The per-agent query is the owner query narrowed to one agent. */
  lemma {:induction false} ByAgentNarrowsOwner(store: Store, owner: Id, agent: Id)
    ensures GetListsByAgent(store, owner, agent) == AssignedTo(GetLists(store, owner), agent)
  {
    if |store| > 0 {
      ByAgentNarrowsOwner(store[1..], owner, agent);
      var head := if store[0].createdBy == Some(owner) then [store[0]] else [];
      AssignedToAppend(head, GetLists(store[1..], owner), agent);
    }
  }

  lemma {:induction false} AssignedToAppend(s: seq<ListItem>, t: seq<ListItem>, agent: Id)
    ensures AssignedTo(s + t, agent) == AssignedTo(s, agent) + AssignedTo(t, agent)
  {
    if |s| == 0 {
      assert s + t == t;
    } else {
      assert (s + t)[1..] == s[1..] + t;
      AssignedToAppend(s[1..], t, agent);
    }
  }

  predicate DistinctIds(roster: seq<Agent>)
  {
    forall i, j :: 0 <= i < j < |roster| ==> roster[i].id != roster[j].id
  }

  lemma TagCons(rows: seq<Row>, agent: Id, admin: Id)
    requires |rows| > 0
    ensures Tag(rows, agent, admin) == [NewItem(rows[0], agent, admin)] + Tag(rows[1..], agent, admin)
  {
  }

  lemma RecordsCons(roster: seq<Agent>, distribution: seq<seq<Row>>, admin: Id)
    requires |distribution| == |roster| > 0
    ensures Records(roster, distribution, admin)
      == Tag(distribution[0], roster[0].id, admin) + Records(roster[1..], distribution[1..], admin)
  {
  }

  /** An agent's query over the items of one block: all of them when the block is the agent's, none otherwise. */
  lemma {:induction false} ByAgentOfTag(rows: seq<Row>, tagged: Id, admin: Id, agent: Id)
    ensures GetListsByAgent(Tag(rows, tagged, admin), admin, agent) == if agent == tagged then Tag(rows, tagged, admin) else []
  {
    if |rows| > 0 {
      ByAgentOfTag(rows[1..], tagged, admin, agent);
      TagCons(rows, tagged, admin);
      GetListsByAgentAppend([NewItem(rows[0], tagged, admin)], Tag(rows[1..], tagged, admin), admin, agent);
    }
  }

  /** With distinct agent ids, agent `i`'s items among the new records are exactly its block, tagged. */
  lemma {:induction false} ByAgentOfRecords(roster: seq<Agent>, distribution: seq<seq<Row>>, admin: Id, i: nat)
    requires |distribution| == |roster| && DistinctIds(roster) && i < |roster|
    ensures GetListsByAgent(Records(roster, distribution, admin), admin, roster[i].id)
      == Tag(distribution[i], roster[i].id, admin)
  {
    var a := roster[i].id;
    var head := Tag(distribution[0], roster[0].id, admin);
    var rest := Records(roster[1..], distribution[1..], admin);
    RecordsCons(roster, distribution, admin);
    GetListsByAgentAppend(head, rest, admin, a);
    ByAgentOfTag(distribution[0], roster[0].id, admin, a);
    if i == 0 {
      TailLacksHead(roster);
      AbsentAgent(roster[1..], distribution[1..], admin, a);
    } else {
      DistinctTail(roster);
      assert roster[1..][i - 1] == roster[i];
      ByAgentOfRecords(roster[1..], distribution[1..], admin, i - 1);
    }
  }

  lemma TailLacksHead(roster: seq<Agent>)
    requires DistinctIds(roster) && |roster| > 0
    ensures forall m :: 0 <= m < |roster[1..]| ==> roster[1..][m].id != roster[0].id
  {
    forall m | 0 <= m < |roster[1..]| ensures roster[1..][m].id != roster[0].id {
      assert roster[1..][m] == roster[m + 1];
    }
  }

  lemma DistinctTail(roster: seq<Agent>)
    requires DistinctIds(roster) && |roster| > 0
    ensures DistinctIds(roster[1..])
  {
    forall m, n | 0 <= m < n < |roster[1..]| ensures roster[1..][m].id != roster[1..][n].id {
      assert roster[1..][m] == roster[m + 1] && roster[1..][n] == roster[n + 1];
    }
  }

  /** An id that no roster agent has gets none of the new records. */
  lemma {:induction false} AbsentAgent(roster: seq<Agent>, distribution: seq<seq<Row>>, admin: Id, agent: Id)
    requires |distribution| == |roster|
    requires forall i :: 0 <= i < |roster| ==> roster[i].id != agent
    ensures GetListsByAgent(Records(roster, distribution, admin), admin, agent) == []
  {
    if |roster| > 0 {
      var head := Tag(distribution[0], roster[0].id, admin);
      var rest := Records(roster[1..], distribution[1..], admin);
      GetListsByAgentAppend(head, rest, admin, agent);
      ByAgentOfTag(distribution[0], roster[0].id, admin, agent);
      AbsentAgent(roster[1..], distribution[1..], admin, agent);
    }
  }

  /** A sequence of items all tagged with the owner is its own owner query. */
  lemma {:induction false} OwnedByAll(items: seq<ListItem>, owner: Id)
    requires forall j :: 0 <= j < |items| ==> items[j].createdBy == Some(owner)
    ensures GetLists(items, owner) == items
  {
    if |items| > 0 {
      OwnedByAll(items[1..], owner);
      assert items == [items[0]] + items[1..];
    }
  }

  /** Items none of which carry the owner's tag contribute nothing to the owner query. */
  lemma {:induction false} NoneOwned(items: seq<ListItem>, owner: Id)
    requires forall j :: 0 <= j < |items| ==> items[j].createdBy != Some(owner)
    ensures GetLists(items, owner) == []
  {
    if |items| > 0 {
      NoneOwned(items[1..], owner);
    }
  }
}
