/** The deduplication itself (backend/src/aspen/alerts_processing.rs:121-279): group by content
    hash, build adjacency lists, walk the components breadth first, merge each of them. Maps and
    sets are enumerated in arbitrary order. */
module AlertMerging {
  import opened Counting
  import opened Sorting
  import opened AlertDedup
  import Strings

  type Group = seq<(Id, Alert)>

  /** group lists, once each, the alerts among done whose content hashes to h. */
  ghost predicate GroupOf(alerts: Alerts, hash: Hasher, done: set<Id>, h: nat, group: Group) {
    && (forall k :: 0 <= k < |group| ==>
          && group[k].0 in done && group[k].0 in alerts
          && group[k].1 == alerts[group[k].0] && hash(group[k].1.content) == h)
    && (forall a :: a in done && a in alerts && hash(alerts[a].content) == h ==> (a, alerts[a]) in group)
    && forall k, l :: 0 <= k < l < |group| ==> group[k].0 != group[l].0
  }

  method GroupByHash(alerts: Alerts, hash: Hasher) returns (groups: map<nat, Group>)
    ensures forall h :: h in groups ==> groups[h] != [] && GroupOf(alerts, hash, alerts.Keys, h, groups[h])
    ensures forall a :: a in alerts ==> hash(alerts[a].content) in groups
  {
    hide GroupOf;
    groups := map[];
    var rest := alerts.Keys;
    while rest != {}
      invariant rest <= alerts.Keys
      invariant forall h :: h in groups ==> groups[h] != [] && GroupOf(alerts, hash, alerts.Keys - rest, h, groups[h])
      invariant forall a :: a in alerts.Keys - rest ==> hash(alerts[a].content) in groups
    {
      var id :| id in rest;
      var h := hash(alerts[id].content);
      var group := if h in groups then groups[h] else [];
      AddToGroup(alerts, hash, alerts.Keys - rest, h, group, id);
      forall g | g in groups && g != h ensures GroupOf(alerts, hash, alerts.Keys - rest + {id}, g, groups[g]) {
        SkipInGroup(alerts, hash, alerts.Keys - rest, g, groups[g], id);
      }
      groups := groups[h := group + [(id, alerts[id])]];
      assert alerts.Keys - rest + {id} == alerts.Keys - (rest - {id});
      rest := rest - {id};
    }
    assert alerts.Keys - rest == alerts.Keys;
  }

  lemma AddToGroup(alerts: Alerts, hash: Hasher, done: set<Id>, h: nat, group: Group, id: Id)
    requires id in alerts && id !in done && hash(alerts[id].content) == h
    requires GroupOf(alerts, hash, done, h, group)
          || (group == [] && forall a :: a in done && a in alerts ==> hash(alerts[a].content) != h)
    ensures GroupOf(alerts, hash, done + {id}, h, group + [(id, alerts[id])])
  {
  }

  lemma SkipInGroup(alerts: Alerts, hash: Hasher, done: set<Id>, h: nat, group: Group, id: Id)
    requires id in alerts && hash(alerts[id].content) != h
    requires GroupOf(alerts, hash, done, h, group)
    ensures GroupOf(alerts, hash, done + {id}, h, group)
  {
  }

  predicate Matched(group: Group, p: nat, q: nat)
    requires p < |group| && q < |group|
  {
    p != q && Match(group[p].1, group[q].1)
  }

  /** Index lists of the matches between different members of the group. */
  ghost predicate Adjacency(group: Group, adjacency: seq<seq<nat>>) {
    && |adjacency| == |group|
    && forall i, j {:trigger j in adjacency[i]} :: 0 <= i < |group| ==>
         (j in adjacency[i] <==> 0 <= j < |group| && Matched(group, i, j))
  }

  lemma MatchSymmetric(a: Alert, b: Alert)
    ensures Match(a, b) <==> Match(b, a)
  {
  }

  /** The unordered pair {p, q} comes before the pair (i, j), row by row. */
  ghost predicate Before(p: int, q: int, i: int, j: int) {
    p != q && (p < i || q < i || (p == i && q < j) || (q == i && p < j))
  }

  ghost predicate PartAdjacency(group: Group, adjacency: seq<seq<nat>>, i: nat, j: nat) {
    && |adjacency| == |group|
    && forall p, q {:trigger q in adjacency[p]} :: 0 <= p < |group| ==>
         (q in adjacency[p] <==> 0 <= q < |group| && Before(p, q, i, j) && Matched(group, p, q))
  }

  lemma AddPair(group: Group, adjacency: seq<seq<nat>>, i: nat, j: nat)
    requires PartAdjacency(group, adjacency, i, j) && i < j < |group|
    ensures Matched(group, i, j) ==>
              PartAdjacency(group, adjacency[i := adjacency[i] + [j]][j := adjacency[j] + [i]], i, j + 1)
    ensures !Matched(group, i, j) ==> PartAdjacency(group, adjacency, i, j + 1)
  {
    MatchSymmetric(group[i].1, group[j].1);
    assert Matched(group, i, j) <==> Matched(group, j, i);
    hide Matched;
    var updated := adjacency[i := adjacency[i] + [j]][j := adjacency[j] + [i]];
    forall p, q: int | 0 <= p < |group|
      ensures q in updated[p] <==> q in adjacency[p] || (p == i && q == j) || (p == j && q == i)
    {
    }
  }

  method BuildAdjacency(group: Group) returns (adjacency: array<seq<nat>>)
    ensures fresh(adjacency) && Adjacency(group, adjacency[..])
  {
    hide Match, Matched;
    var n := |group|;
    adjacency := new seq<nat>[n](_ => []);
    for i := 0 to n
      invariant PartAdjacency(group, adjacency[..], i, i + 1)
    {
      for j := i + 1 to n
        invariant PartAdjacency(group, adjacency[..], i, j)
      {
        ghost var before := adjacency[..];
        AddPair(group, before, i, j);
        if Matched(group, i, j) {
          adjacency[i] := adjacency[i] + [j];
          adjacency[j] := adjacency[j] + [i];
          assert adjacency[..] == before[i := before[i] + [j]][j := before[j] + [i]];
        }
      }
    }
    AllPairs(group, adjacency[..]);
  }

  lemma AllPairs(group: Group, adjacency: seq<seq<nat>>)
    requires PartAdjacency(group, adjacency, |group|, |group| + 1)
    ensures Adjacency(group, adjacency)
  {
    hide Match;
  }

  /** A list of positions in the group. */
  ghost predicate Within(list: seq<nat>, group: Group) {
    forall j :: 0 <= j < |list| ==> list[j] < |group|
  }

  ghost function Ids(group: Group, indices: seq<nat>): set<Id>
    requires Within(indices, group)
  {
    set k | k in indices :: group[k].0
  }

  /** A set of indices linked to i and closed under matches holds exactly the class of i. */
  lemma ComponentIsClass(alerts: Alerts, hash: Hasher, h: nat, group: Group, component: seq<nat>, i: nat)
    requires GroupOf(alerts, hash, alerts.Keys, h, group)
    requires Within(component, group) && i in component
    requires forall k :: k in component ==> Linked(alerts, hash, group[i].0, group[k].0)
    requires forall k, l :: k in component && 0 <= l < |group| && Match(group[k].1, group[l].1) ==> l in component
    ensures Ids(group, component) == Class(alerts, hash, group[i].0)
  {
    hide Match, Linked;
    var ids := Ids(group, component);
    forall x, y | x in ids && Adjacent(alerts, hash, x, y) ensures y in ids {
      var k :| k in component && group[k].0 == x;
      assert (y, alerts[y]) in group;
      var l :| 0 <= l < |group| && group[l] == (y, alerts[y]);
      assert l in component;
    }
    forall b | b in Class(alerts, hash, group[i].0) ensures b in ids {
      var path := LinkPath(alerts, hash, group[i].0, b);
      ClosedHoldsLinked(alerts, hash, ids, path, group[i].0, b);
    }
    forall b | b in ids ensures b in Class(alerts, hash, group[i].0) {
      var k :| k in component && group[k].0 == b;
    }
  }

  lemma LinkPath(alerts: Alerts, hash: Hasher, a: Id, b: Id) returns (path: seq<Id>)
    requires Linked(alerts, hash, a, b)
    ensures Chain(alerts, hash, path, a, b)
  {
    path :| Chain(alerts, hash, path, a, b);
  }

  /** Everything marked as visited has its matches marked too. */
  ghost predicate ClosedMarks(adjacency: seq<seq<nat>>, visited: seq<bool>) {
    |visited| == |adjacency| && forall k :: 0 <= k < |visited| && visited[k] ==> AllVisited(adjacency[k], visited)
  }

  /** Breadth-first search from i: exactly the class of i, and the marks stay closed. */
  method Component(ghost alerts: Alerts, ghost hash: Hasher, ghost h: nat, group: Group,
                   adjacency: array<seq<nat>>, visited: array<bool>, i: nat)
    returns (component: seq<nat>)
    requires GroupOf(alerts, hash, alerts.Keys, h, group) && Adjacency(group, adjacency[..])
    requires adjacency.Length == visited.Length == |group|
    requires i < |group| && ClosedMarks(adjacency[..], visited[..]) && !visited[i]
    modifies visited
    ensures component != [] && component[0] == i && Within(component, group)
    ensures Ids(group, component) == Class(alerts, hash, group[i].0)
    ensures ClosedMarks(adjacency[..], visited[..])
    ensures forall k :: 0 <= k < |group| ==> (visited[k] <==> old(visited[k]) || k in component)
  {
    hide Match, GroupOf, Linked, Class, Ids, Searched, Adjacency, ClosedMarks, AllVisited;
    ghost var before, lists := visited[..], adjacency[..];
    component := [];
    var queue: seq<nat> := [i];
    visited[i] := true;
    assert visited[..] == before[i := true];
    SearchStart(alerts, hash, h, group, i, before);
    ghost var done: set<nat> := {};
    while queue != []
      invariant Searched(alerts, hash, group, i, before, visited[..], component, queue)
      invariant Expanded(lists, visited[..], done) && done == Elements(component)
      decreases |group| - |component|
    {
      SearchPop(alerts, hash, group, i, before, visited[..], component, queue);
      var idx := queue[0];
      queue := queue[1..];
      component := component + [idx];
      var neighbours := adjacency[idx];
      assert neighbours == lists[idx];
      AllVisitedNone(neighbours, visited[..]);
      for m := 0 to |neighbours|
        invariant Searched(alerts, hash, group, i, before, visited[..], component, queue)
        invariant Expanded(lists, visited[..], done)
        invariant AllVisited(neighbours[..m], visited[..])
      {
        var neighbour := neighbours[m];
        NeighbourMatches(group, lists, idx, m);
        ghost var marks := visited[..];
        SearchVisit(alerts, hash, h, group, i, before, marks, component, queue, idx, neighbour);
        if !visited[neighbour] {
          visited[neighbour] := true;
          queue := queue + [neighbour];
          assert visited[..] == marks[neighbour := true];
        }
        MarksGrow(lists, marks, visited[..], done, neighbours, m);
      }
      done := done + {idx};
      AllExpanded(lists, visited[..], done, component, idx);
    }
    SearchDone(alerts, hash, group, i, lists, before, visited[..], component);
    ComponentIsClass(alerts, hash, h, group, component, i);
  }

  /** The list of neighbours of every finished node is marked throughout. */
  ghost predicate Expanded(adjacency: seq<seq<nat>>, visited: seq<bool>, done: set<nat>) {
    forall k :: k in done ==> k < |adjacency| && AllVisited(adjacency[k], visited)
  }

  /** What the search keeps: everything found is linked to i and was unmarked before, once each, and
      exactly the found nodes have been marked. */
  ghost predicate Searched(alerts: Alerts, hash: Hasher, group: Group, i: nat, before: seq<bool>, visited: seq<bool>,
                           component: seq<nat>, queue: seq<nat>) {
    var found := component + queue;
    && i < |group| && |before| == |visited| == |group|
    && Distinct(found) && Within(found, group) && found != [] && found[0] == i
    && (forall k :: 0 <= k < |found| ==> !before[found[k]] && Linked(alerts, hash, group[i].0, group[found[k]].0))
    && forall k :: 0 <= k < |group| ==> (visited[k] <==> before[k] || k in found)
  }

  lemma SearchStart(alerts: Alerts, hash: Hasher, h: nat, group: Group, i: nat, before: seq<bool>)
    requires GroupOf(alerts, hash, alerts.Keys, h, group) && i < |group| == |before| && !before[i]
    ensures Searched(alerts, hash, group, i, before, before[i := true], [], [i])
  {
    LinkedReflexive(alerts, hash, group[i].0);
    assert [] + [i] == [i];
  }

  lemma SearchPop(alerts: Alerts, hash: Hasher, group: Group, i: nat, before: seq<bool>, visited: seq<bool>,
                  component: seq<nat>, queue: seq<nat>)
    requires Searched(alerts, hash, group, i, before, visited, component, queue) && queue != []
    ensures queue[0] < |group| && |component| < |group|
    ensures Searched(alerts, hash, group, i, before, visited, component + [queue[0]], queue[1..])
  {
    assert component + [queue[0]] + queue[1..] == component + queue;
    BelowSize(component + queue, |group|);
    assert (component + queue)[|component|] == queue[0];
  }

  lemma SearchVisit(alerts: Alerts, hash: Hasher, h: nat, group: Group, i: nat, before: seq<bool>, visited: seq<bool>,
                    component: seq<nat>, queue: seq<nat>, idx: nat, neighbour: nat)
    requires GroupOf(alerts, hash, alerts.Keys, h, group)
    requires Searched(alerts, hash, group, i, before, visited, component, queue)
    requires component != [] && component[|component| - 1] == idx
    requires idx < |group| && neighbour < |group| && Match(group[idx].1, group[neighbour].1)
    ensures |visited| == |group|
    ensures !visited[neighbour] ==>
              Searched(alerts, hash, group, i, before, visited[neighbour := true], component, queue + [neighbour])
  {
    hide Match, Linked;
    assert (component + queue)[|component| - 1] == idx;
    NeighbourLinked(alerts, hash, h, group, i, idx, neighbour);
    assert component + (queue + [neighbour]) == component + queue + [neighbour];
  }

  lemma SearchDone(alerts: Alerts, hash: Hasher, group: Group, i: nat, adjacency: seq<seq<nat>>, before: seq<bool>,
                   visited: seq<bool>, component: seq<nat>)
    requires Searched(alerts, hash, group, i, before, visited, component, [])
    requires Expanded(adjacency, visited, Elements(component))
    requires Adjacency(group, adjacency) && ClosedMarks(adjacency, before)
    ensures component != [] && component[0] == i && Within(component, group)
    ensures forall k :: k in component ==> k < |group| && Linked(alerts, hash, group[i].0, group[k].0)
    ensures forall k :: 0 <= k < |group| ==> (visited[k] <==> before[k] || k in component)
    ensures forall k, l :: k in component && 0 <= l < |group| && Match(group[k].1, group[l].1) ==> l in component
    ensures ClosedMarks(adjacency, visited)
  {
    hide Match, Linked;
    assert component + [] == component;
    forall k | k in component ensures k < |group| && !before[k] && AllVisited(adjacency[k], visited) {
      assert k in Elements(component);
    }
    ComponentClosed(group, adjacency, before, visited, component);
  }

  lemma AllVisitedNone(list: seq<nat>, visited: seq<bool>)
    ensures AllVisited(list[..0], visited)
  {
  }

  /** Marks are only ever added. */
  lemma MarksGrow(adjacency: seq<seq<nat>>, marks: seq<bool>, visited: seq<bool>, done: set<nat>,
                  neighbours: seq<nat>, m: nat)
    requires |visited| == |marks| && forall k :: 0 <= k < |marks| && marks[k] ==> visited[k]
    requires m < |neighbours| && AllVisited(neighbours[..m], marks) && Expanded(adjacency, marks, done)
    requires neighbours[m] < |visited| && visited[neighbours[m]]
    ensures AllVisited(neighbours[..m + 1], visited) && Expanded(adjacency, visited, done)
  {
    assert neighbours[..m + 1] == neighbours[..m] + [neighbours[m]];
  }

  lemma AllExpanded(adjacency: seq<seq<nat>>, visited: seq<bool>, done: set<nat>, component: seq<nat>, idx: nat)
    requires Expanded(adjacency, visited, done - {idx}) && idx < |adjacency|
    requires AllVisited(adjacency[idx][..|adjacency[idx]|], visited)
    requires component != [] && idx == component[|component| - 1]
    requires done == Elements(component[..|component| - 1]) + {idx}
    ensures Expanded(adjacency, visited, done) && done == Elements(component)
  {
    assert adjacency[idx][..|adjacency[idx]|] == adjacency[idx];
    assert component == component[..|component| - 1] + [idx];
    forall k | k in done ensures k < |adjacency| && AllVisited(adjacency[k], visited) {
      if k != idx { assert k in done - {idx}; }
    }
  }

  ghost predicate AllVisited(list: seq<nat>, visited: seq<bool>) {
    forall l :: l in list ==> l < |visited| && visited[l]
  }

  /** A finished search is closed: matches are symmetric, so none leads into earlier components. */
  lemma ComponentClosed(group: Group, adjacency: seq<seq<nat>>, before: seq<bool>, visited: seq<bool>,
                        component: seq<nat>)
    requires Adjacency(group, adjacency) && ClosedMarks(adjacency, before) && |visited| == |group|
    requires Within(component, group)
    requires forall k :: k in component ==> !before[k] && AllVisited(adjacency[k], visited)
    requires forall k :: 0 <= k < |group| ==> (visited[k] <==> before[k] || k in component)
    ensures forall k, l :: k in component && 0 <= l < |group| && Match(group[k].1, group[l].1) ==> l in component
    ensures ClosedMarks(adjacency, visited)
  {
    hide Match;
    forall k, l | k in component && 0 <= l < |group| && Match(group[k].1, group[l].1) ensures l in component {
      if k != l {
        assert l in adjacency[k];
        MatchSymmetric(group[k].1, group[l].1);
        assert k in adjacency[l];
      }
    }
    forall k | 0 <= k < |visited| && visited[k] ensures AllVisited(adjacency[k], visited) {
      if k !in component {
        assert before[k] && AllVisited(adjacency[k], before);
      }
    }
  }

  lemma NeighbourMatches(group: Group, adjacency: seq<seq<nat>>, k: nat, m: nat)
    requires Adjacency(group, adjacency) && k < |group| && m < |adjacency[k]|
    ensures adjacency[k][m] < |group| && Match(group[k].1, group[adjacency[k][m]].1)
  {
    var l := adjacency[k][m];
    assert l in adjacency[k];
  }

  lemma NeighbourLinked(alerts: Alerts, hash: Hasher, h: nat, group: Group, i: nat, k: nat, l: nat)
    requires GroupOf(alerts, hash, alerts.Keys, h, group) && i < |group| && k < |group| && l < |group|
    requires Linked(alerts, hash, group[i].0, group[k].0) && Match(group[k].1, group[l].1)
    ensures Linked(alerts, hash, group[i].0, group[l].0)
  {
    LinkedStep(alerts, hash, group[i].0, group[k].0, group[l].0);
  }

  /** The first of the ids once they are sorted. */
  method FirstId(ids: seq<Id>) returns (first: Id)
    requires ids != []
    ensures first in ids && forall x :: x in ids ==> Strings.AtMost(first, x)
  {
    first := ids[0];
    Strings.Total(first, first);
    for i := 1 to |ids|
      invariant first in ids
      invariant forall j :: 0 <= j < i ==> Strings.AtMost(first, ids[j])
    {
      Strings.Total(first, ids[i]);
      if !Strings.AtMost(first, ids[i]) {
        forall j | 0 <= j < i ensures Strings.AtMost(ids[i], ids[j]) { Strings.Transitive(ids[i], first, ids[j]); }
        first := ids[i];
        Strings.Total(first, first);
      }
    }
  }

  /** The first m members of the component have been gathered. */
  ghost predicate Gathered(group: Group, component: seq<nat>, m: nat,
                           periods: set<TimeRange>, entities: set<Entity>, ids: seq<Id>)
    requires Within(component, group) && m <= |component|
  {
    && |ids| == m && (forall j :: 0 <= j < m ==> ids[j] == group[component[j]].0)
    && (forall p :: p in periods <==> exists j :: 0 <= j < m && p in group[component[j]].1.activePeriod)
    && (forall e :: e in entities <==> exists j :: 0 <= j < m && e in group[component[j]].1.informedEntity)
  }

  lemma GatherOne(group: Group, component: seq<nat>, m: nat, periods: set<TimeRange>, entities: set<Entity>,
                  ids: seq<Id>)
    requires Within(component, group) && m < |component|
    requires Gathered(group, component, m, periods, entities, ids)
    ensures var (id, alert) := group[component[m]];
            Gathered(group, component, m + 1, periods + Elements(alert.activePeriod),
                     entities + Elements(alert.informedEntity), ids + [id])
  {
  }

  lemma GatheredAll(alerts: Alerts, group: Group, component: seq<nat>, periods: set<TimeRange>, entities: set<Entity>,
                    ids: seq<Id>, merged: Alert)
    requires Within(component, group) && component != []
    requires Gathered(group, component, |component|, periods, entities, ids)
    requires forall k :: 0 <= k < |group| ==> group[k].0 in alerts && group[k].1 == alerts[group[k].0]
    requires forall p :: p in merged.activePeriod <==> p in periods
    requires forall e :: e in merged.informedEntity <==> e in entities
    requires merged.content == group[component[0]].1.content && merged.speech == group[component[0]].1.speech
    ensures Elements(ids) == Ids(group, component)
    ensures MergeOf(alerts, Ids(group, component), merged)
  {
    assert forall j :: 0 <= j < |component| ==> component[j] in component;
    assert forall j :: 0 <= j < |component| ==> group[component[j]].0 in Ids(group, component);
    forall b | b in Ids(group, component) ensures exists j :: 0 <= j < |component| && group[component[j]].0 == b {
    }
    assert forall j :: 0 <= j < |ids| ==> ids[j] == group[component[j]].0;
    assert Elements(ids) == Ids(group, component);
  }

  /** Union the periods and entities of a component and file them under its least id. */
  method MergeComponent(ghost alerts: Alerts, group: Group, component: seq<nat>, entityRank: Entity -> int)
    returns (id: Id, merged: Alert)
    requires component != [] && Within(component, group)
    requires forall k :: 0 <= k < |group| ==> group[k].0 in alerts && group[k].1 == alerts[group[k].0]
    ensures id in Ids(group, component) && forall b :: b in Ids(group, component) ==> Strings.AtMost(id, b)
    ensures MergeOf(alerts, Ids(group, component), merged)
    ensures Tidy(merged) && SortedBy(merged.informedEntity, entityRank)
  {
    hide Gathered, MergeOf, Ids;
    var periods: set<TimeRange>, entities: set<Entity>, ids: seq<Id> := {}, {}, [];
    assert Gathered(group, component, 0, periods, entities, ids) by { GatherNone(group, component); }
    for m := 0 to |component|
      invariant |ids| == m && Gathered(group, component, m, periods, entities, ids)
    {
      GatherOne(group, component, m, periods, entities, ids);
      var (memberId, alert) := group[component[m]];
      ids := ids + [memberId];
      periods := periods + Elements(alert.activePeriod);
      entities := entities + Elements(alert.informedEntity);
    }
    id := FirstId(ids);
    var template := group[component[0]].1;
    var periodList := SetToSeq(periods);
    var entityList := SetToSeq(entities);
    merged := template.(activePeriod := SortBy(periodList, StartKey), informedEntity := SortBy(entityList, entityRank));
    SortMembers(periodList, StartKey);
    SortMembers(entityList, entityRank);
    SortDistinct(periodList, StartKey);
    SortDistinct(entityList, entityRank);
    SortSorts(periodList, StartKey);
    SortSorts(entityList, entityRank);
    GatheredAll(alerts, group, component, periods, entities, ids, merged);
    assert forall b :: b in Ids(group, component) ==> b in ids by {
      assert forall b :: b in Elements(ids) <==> b in ids;
    }
    assert id in Elements(ids);
  }

  lemma GatherNone(group: Group, component: seq<nat>)
    requires Within(component, group)
    ensures Gathered(group, component, 0, {}, {}, [])
  {
  }

  lemma SortDistinct<T>(s: seq<T>, key: T -> int)
    requires Distinct(s)
    ensures Distinct(SortBy(s, key))
  {
    var r := SortBy(s, key);
    SortMembers(s, key);
    forall i, j | 0 <= i < j < |r| ensures r[i] != r[j] {
      DistinctCount(s, r[i]);
      CountTwo(r, i, j);
    }
  }

  lemma CountTwo<T>(r: seq<T>, i: nat, j: nat)
    requires i < j < |r|
    ensures r[i] == r[j] ==> multiset(r)[r[i]] >= 2
  {
    var front, back := r[..j], r[j..];
    assert r == front + back;
    assert front[i] in multiset(front) && back[0] in multiset(back);
  }

  /** Among the alerts in done, out holds exactly the merged classes, under their least ids. */
  ghost predicate Covers(alerts: Alerts, hash: Hasher, done: set<Id>, out: Alerts) {
    && (forall a :: a in out <==> a in done && Primary(alerts, hash, a))
    && forall a :: a in out ==>
         MergeOf(alerts, Class(alerts, hash, a), out[a]) && Arranged(alerts, hash, a, out[a])
  }

  /** Filing one class: its least id is new, so no earlier output is overwritten. */
  lemma FileClass(alerts: Alerts, hash: Hasher, done: set<Id>, out: Alerts, a: Id, id: Id, merged: Alert)
    requires Covers(alerts, hash, done, out)
    requires id in Class(alerts, hash, a) && forall b :: b in Class(alerts, hash, a) ==> Strings.AtMost(id, b)
    requires MergeOf(alerts, Class(alerts, hash, a), merged) && Arranged(alerts, hash, id, merged)
    ensures Covers(alerts, hash, done + Class(alerts, hash, a), out[id := merged])
  {
    hide MergeOf, Arranged;
    PrimaryOfClass(alerts, hash, a, id);
    ClassesAgree(alerts, hash, a, id);
  }

  ghost predicate MembersOf(alerts: Alerts, group: Group) {
    forall k :: 0 <= k < |group| ==> group[k].0 in alerts && group[k].1 == alerts[group[k].0]
  }

  ghost function GroupIds(group: Group): set<Id> {
    set k | 0 <= k < |group| :: group[k].0
  }

  /** Merge every component of one hash group into the output. */
  method MergeGroup(ghost alerts: Alerts, ghost hash: Hasher, ghost h: nat, group: Group, entityRank: Entity -> int,
                    ghost done: set<Id>, out: Alerts)
    returns (out': Alerts)
    requires GroupOf(alerts, hash, alerts.Keys, h, group) && group != []
    requires Covers(alerts, hash, done, out)
    ensures Covers(alerts, hash, done + GroupIds(group), out')
  {
    hide Match, Linked, Class, MergeOf, Ids, Covers, Arranged, Tidy, SortedBy, Strings.AtMost;
    ghost var done' := done;
    out' := out;
    assert MembersOf(alerts, group);
    if |group| == 1 {
      var (id, alert) := group[0];
      SingletonClass(alerts, hash, h, group);
      FileClass(alerts, hash, done, out, id, id, alert);
      assert GroupIds(group) == {group[0].0};
      return out[id := alert];
    }
    var adjacency := BuildAdjacency(group);
    var visited := new bool[|group|](_ => false);
    for i := 0 to |group|
      invariant adjacency.Length == visited.Length == |group|
      invariant Adjacency(group, adjacency[..]) && ClosedMarks(adjacency[..], visited[..])
      invariant forall k :: 0 <= k < i ==> visited[k]
      invariant done <= done' <= done + GroupIds(group)
      invariant forall k :: 0 <= k < |group| && visited[k] ==> group[k].0 in done'
      invariant Covers(alerts, hash, done', out')
    {
      if visited[i] {
        continue;
      }
      var component := Component(alerts, hash, h, group, adjacency, visited, i);
      var id, merged := MergeComponent(alerts, group, component, entityRank);
      MergedIsArranged(alerts, hash, h, group, component, id, merged);
      FileClass(alerts, hash, done', out', group[i].0, id, merged);
      IdsWithinGroup(group, component);
      out' := out'[id := merged];
      done' := done' + Class(alerts, hash, group[i].0);
      forall k | k in component ensures group[k].0 in Class(alerts, hash, group[i].0) {
        InIds(group, component, k);
      }
    }
    assert done' == done + GroupIds(group);
  }

  lemma IdsWithinGroup(group: Group, indices: seq<nat>)
    requires Within(indices, group)
    ensures Ids(group, indices) <= GroupIds(group)
  {
  }

  lemma MergedIsArranged(alerts: Alerts, hash: Hasher, h: nat, group: Group, component: seq<nat>, id: Id, merged: Alert)
    requires GroupOf(alerts, hash, alerts.Keys, h, group) && |group| > 1
    requires Within(component, group) && id in Ids(group, component) && Tidy(merged)
    ensures Arranged(alerts, hash, id, merged)
  {
    var k :| k in component && group[k].0 == id;
    var l := if k == 0 then 1 else 0;
    assert group[l].0 != id && hash(alerts[group[l].0].content) == hash(alerts[id].content);
  }

  lemma InIds(group: Group, component: seq<nat>, k: nat)
    requires Within(component, group) && k in component
    ensures k < |group| && group[k].0 in Ids(group, component)
  {
  }

  lemma SingletonClass(alerts: Alerts, hash: Hasher, h: nat, group: Group)
    requires GroupOf(alerts, hash, alerts.Keys, h, group) && |group| == 1
    ensures var (id, alert) := group[0];
            && Class(alerts, hash, id) == {id} && Strings.AtMost(id, id)
            && MergeOf(alerts, {id}, alert) && Arranged(alerts, hash, id, alert)
  {
    var (id, alert) := group[0];
    LonelyClass(alerts, hash, id);
    Strings.Total(id, id);
  }

  /** Whatever the order of enumeration, the result is the promised one. */
  method Deduplicate(alerts: Alerts, hash: Hasher, entityRank: Entity -> int) returns (out: Alerts)
    ensures Deduplicated(alerts, hash, out)
  {
    hide Match, Linked, Class, MergeOf, Covers, GroupOf, Deduplicated;
    var groups := GroupByHash(alerts, hash);
    ghost var done: set<Id> := {};
    out := map[];
    CoversNothing(alerts, hash);
    var rest := groups.Keys;
    while rest != {}
      invariant rest <= groups.Keys
      invariant Covers(alerts, hash, done, out)
      invariant forall h, k :: h in groups && h !in rest && 0 <= k < |groups[h]| ==> groups[h][k].0 in done
    {
      var h :| h in rest;
      rest := rest - {h};
      out := MergeGroup(alerts, hash, h, groups[h], entityRank, done, out);
      done := done + GroupIds(groups[h]);
    }
    forall a | a in alerts ensures a in done {
      var h := hash(alerts[a].content);
      var k := IsGrouped(alerts, hash, h, groups[h], a);
      assert groups[h][k].0 in done;
    }
    CoversAll(alerts, hash, done, out);
  }

  lemma IsGrouped(alerts: Alerts, hash: Hasher, h: nat, group: Group, a: Id) returns (k: nat)
    requires GroupOf(alerts, hash, alerts.Keys, h, group) && a in alerts && hash(alerts[a].content) == h
    ensures k < |group| && group[k].0 == a
  {
    assert (a, alerts[a]) in group;
    k :| k < |group| && group[k] == (a, alerts[a]);
  }

  lemma CoversNothing(alerts: Alerts, hash: Hasher)
    ensures Covers(alerts, hash, {}, map[])
  {
  }

  lemma CoversAll(alerts: Alerts, hash: Hasher, done: set<Id>, out: Alerts)
    requires Covers(alerts, hash, done, out) && alerts.Keys <= done
    ensures Deduplicated(alerts, hash, out)
  {
  }
}
