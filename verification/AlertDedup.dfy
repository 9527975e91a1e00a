/** What alert deduplication promises (backend/src/aspen/alerts_processing.rs:121-279): alerts with
    the same content hash are merged exactly along chains of equal periods or equal entities. */
module AlertDedup {
  import opened Wrappers
  import opened Counting
  import opened Sorting
  import Strings

  datatype TimeRange = TimeRange(start: Option<nat>, end: Option<nat>)

  datatype Entity = Entity(agencyId: Option<string>, routeId: Option<string>, routeType: Option<int>,
                           tripId: Option<string>, stopId: Option<string>, directionId: Option<nat>)

  /** content stands for the ten hashed fields; speech for the two text-to-speech fields, which are
      not hashed. */
  datatype Alert = Alert(content: string, speech: string, activePeriod: seq<TimeRange>, informedEntity: seq<Entity>)

  type Id = string
  type Alerts = map<Id, Alert>
  type Hasher = string -> nat

  /** Option<u64> orders an absent start before every present one. */
  function StartKey(p: TimeRange): int {
    match p.start
    case None => -1
    case Some(t) => t
  }

  /** Equal periods once both are sorted by start, or the same set of informed entities. */
  predicate Match(a: Alert, b: Alert) {
    || SortBy(a.activePeriod, StartKey) == SortBy(b.activePeriod, StartKey)
    || Elements(a.informedEntity) == Elements(b.informedEntity)
  }

  /** The periods that start at a given time, or have no start, in their order. */
  ghost function StartingAt(periods: seq<TimeRange>, start: Option<nat>): seq<TimeRange> {
    if periods == [] then []
    else (if periods[0].start == start then [periods[0]] else []) + StartingAt(periods[1..], start)
  }

  lemma {:induction false} StartingAtKey(periods: seq<TimeRange>, k: int)
    ensures WithKey(periods, StartKey, k) ==
              if k < -1 then [] else StartingAt(periods, if k == -1 then None else Some(k))
  {
    if periods != [] { StartingAtKey(periods[1..], k); }
  }

  ghost predicate SameStarts(a: seq<TimeRange>, b: seq<TimeRange>) {
    forall start: Option<nat> :: StartingAt(a, start) == StartingAt(b, start)
  }

  lemma RunsAreStarts(p: seq<TimeRange>, q: seq<TimeRange>)
    ensures SameRuns(p, q, StartKey) <==> SameStarts(p, q)
  {
    hide StartingAt, WithKey;
    if SameRuns(p, q, StartKey) {
      forall start: Option<nat> ensures StartingAt(p, start) == StartingAt(q, start) {
        var k := if start.None? then -1 else start.value;
        StartingAtKey(p, k);
        StartingAtKey(q, k);
        assert WithKey(p, StartKey, k) == WithKey(q, StartKey, k);
      }
    }
    if SameStarts(p, q) {
      forall k ensures WithKey(p, StartKey, k) == WithKey(q, StartKey, k) {
        StartingAtKey(p, k);
        StartingAtKey(q, k);
      }
    }
  }

  lemma SameElements(s: seq<Entity>, t: seq<Entity>)
    ensures Elements(s) == Elements(t) <==> forall e :: e in s <==> e in t
  {
    forall e ensures (e in s <==> e in Elements(s)) && (e in t <==> e in Elements(t)) {
    }
    if forall e :: e in s <==> e in t { assert Elements(s) == Elements(t); }
  }

  /** Two alerts match exactly if for every start they list the same periods in the same order, or if they
      inform about the same entities. */
  lemma MatchMeans(a: Alert, b: Alert)
    ensures Match(a, b) <==>
              || SameStarts(a.activePeriod, b.activePeriod)
              || (forall e :: e in a.informedEntity <==> e in b.informedEntity)
  {
    hide SameStarts, SameRuns, SortBy, Elements;
    SortsAlike(a.activePeriod, b.activePeriod, StartKey);
    RunsAreStarts(a.activePeriod, b.activePeriod);
    SameElements(a.informedEntity, b.informedEntity);
  }

  ghost predicate Adjacent(alerts: Alerts, hash: Hasher, a: Id, b: Id) {
    a in alerts && b in alerts && hash(alerts[a].content) == hash(alerts[b].content) && Match(alerts[a], alerts[b])
  }

  ghost predicate Chain(alerts: Alerts, hash: Hasher, path: seq<Id>, a: Id, b: Id) {
    && path != [] && path[0] == a && path[|path| - 1] == b
    && (forall i :: 0 <= i < |path| ==> path[i] in alerts)
    && forall i, j :: 0 <= i < |path| && j == i + 1 < |path| ==> Adjacent(alerts, hash, path[i], path[j])
  }

  /** A chain of matches leads from a to b. */
  ghost predicate Linked(alerts: Alerts, hash: Hasher, a: Id, b: Id) {
    exists path :: Chain(alerts, hash, path, a, b)
  }

  ghost function Class(alerts: Alerts, hash: Hasher, a: Id): set<Id> {
    set b | b in alerts && Linked(alerts, hash, a, b)
  }

  /** The least id of its class; merged alerts are filed under these. */
  ghost predicate Primary(alerts: Alerts, hash: Hasher, a: Id) {
    a in alerts && forall b :: b in Class(alerts, hash, a) ==> Strings.AtMost(a, b)
  }

  /** merged carries exactly the periods and entities of the class, and some member's texts. */
  ghost predicate MergeOf(alerts: Alerts, class_: set<Id>, merged: Alert) {
    && class_ <= alerts.Keys
    && (forall p :: p in merged.activePeriod <==> exists b :: b in class_ && p in alerts[b].activePeriod)
    && (forall e :: e in merged.informedEntity <==> exists b :: b in class_ && e in alerts[b].informedEntity)
    && exists b :: b in class_ && merged.content == alerts[b].content && merged.speech == alerts[b].speech
  }

  /** Nothing is listed twice, and the periods are in the order of their starts. */
  ghost predicate Tidy(a: Alert) {
    Distinct(a.activePeriod) && SortedBy(a.activePeriod, StartKey) && Distinct(a.informedEntity)
  }

  /** Tidy periods without a start come first, the others in the order of their starts. */
  lemma TidyMeans(a: Alert, i: nat, j: nat)
    requires Tidy(a)
    ensures i < j < |a.activePeriod| ==>
              var p, q := a.activePeriod[i], a.activePeriod[j];
              p != q && (p.start.None? || (q.start.Some? && p.start.value <= q.start.value))
    ensures i < j < |a.informedEntity| ==> a.informedEntity[i] != a.informedEntity[j]
  {
    if i < j < |a.activePeriod| {
      assert StartKey(a.activePeriod[i]) <= StartKey(a.activePeriod[j]);
    }
  }

  /** An alert whose content hash is its own is passed on as it is, every other output is tidy. */
  ghost predicate Arranged(alerts: Alerts, hash: Hasher, a: Id, merged: Alert) {
    && a in alerts
    && if forall b :: b in alerts && hash(alerts[b].content) == hash(alerts[a].content) ==> b == a
       then merged == alerts[a]
       else Tidy(merged)
  }

  /** The whole result: one output per class, under the least id of the class. */
  ghost predicate Deduplicated(alerts: Alerts, hash: Hasher, out: Alerts) {
    && (forall a :: a in out <==> Primary(alerts, hash, a))
    && forall a :: a in out ==>
         MergeOf(alerts, Class(alerts, hash, a), out[a]) && Arranged(alerts, hash, a, out[a])
  }

  // ---- Linked is an equivalence, and classes are its blocks ----

  lemma LinkedReflexive(alerts: Alerts, hash: Hasher, a: Id)
    requires a in alerts
    ensures Linked(alerts, hash, a, a)
  {
    assert Chain(alerts, hash, [a], a, a);
  }

  lemma LinkedEnds(alerts: Alerts, hash: Hasher, a: Id, b: Id)
    requires Linked(alerts, hash, a, b)
    ensures a in alerts && b in alerts
  {
    var path :| Chain(alerts, hash, path, a, b);
    assert path[0] in alerts && path[|path| - 1] in alerts;
  }

  lemma LinkedStep(alerts: Alerts, hash: Hasher, a: Id, b: Id, c: Id)
    requires Linked(alerts, hash, a, b) && Adjacent(alerts, hash, b, c)
    ensures Linked(alerts, hash, a, c)
  {
    var path :| Chain(alerts, hash, path, a, b);
    assert Chain(alerts, hash, path + [c], a, c);
  }

  lemma {:induction false} LinkedTransitive(alerts: Alerts, hash: Hasher, a: Id, b: Id, c: Id)
    requires Linked(alerts, hash, a, b) && Linked(alerts, hash, b, c)
    ensures Linked(alerts, hash, a, c)
  {
    var path :| Chain(alerts, hash, path, b, c);
    LinkedAlong(alerts, hash, a, path, b, c);
  }

  lemma {:induction false} LinkedAlong(alerts: Alerts, hash: Hasher, a: Id, path: seq<Id>, b: Id, c: Id)
    requires Linked(alerts, hash, a, b) && Chain(alerts, hash, path, b, c)
    ensures Linked(alerts, hash, a, c)
    decreases |path|
  {
    if |path| > 1 {
      LinkedStep(alerts, hash, a, b, path[1]);
      assert Chain(alerts, hash, path[1..], path[1], c);
      LinkedAlong(alerts, hash, a, path[1..], path[1], c);
    }
  }

  lemma {:induction false} LinkedSymmetric(alerts: Alerts, hash: Hasher, a: Id, b: Id)
    requires Linked(alerts, hash, a, b)
    ensures Linked(alerts, hash, b, a)
  {
    var path :| Chain(alerts, hash, path, a, b);
    var back := seq(|path|, i requires 0 <= i < |path| => path[|path| - 1 - i]);
    forall i, j | 0 <= i < |back| && j == i + 1 < |back| ensures Adjacent(alerts, hash, back[i], back[j]) {
      assert Adjacent(alerts, hash, path[|path| - 1 - j], path[|path| - 1 - i]);
    }
    assert Chain(alerts, hash, back, b, a);
  }

  /** A set that every match stays inside holds everything linked to its members. */
  lemma {:induction false} ClosedHoldsLinked(alerts: Alerts, hash: Hasher, closed: set<Id>, path: seq<Id>, a: Id, b: Id)
    requires a in closed && Chain(alerts, hash, path, a, b)
    requires forall x, y :: x in closed && Adjacent(alerts, hash, x, y) ==> y in closed
    ensures b in closed
    decreases |path|
  {
    if |path| > 1 {
      assert Adjacent(alerts, hash, path[0], path[1]);
      assert Chain(alerts, hash, path[1..], path[1], b);
      ClosedHoldsLinked(alerts, hash, closed, path[1..], path[1], b);
    }
  }

  lemma ClassesAgree(alerts: Alerts, hash: Hasher, a: Id, b: Id)
    requires Linked(alerts, hash, a, b)
    ensures Class(alerts, hash, a) == Class(alerts, hash, b)
  {
    LinkedSymmetric(alerts, hash, a, b);
    forall x ensures x in Class(alerts, hash, a) <==> x in Class(alerts, hash, b) {
      if x in Class(alerts, hash, a) { LinkedTransitive(alerts, hash, b, a, x); }
      if x in Class(alerts, hash, b) { LinkedTransitive(alerts, hash, a, b, x); }
    }
  }

  /** The least member of a class is its only primary. */
  lemma PrimaryOfClass(alerts: Alerts, hash: Hasher, a: Id, least: Id)
    requires least in Class(alerts, hash, a) && forall b :: b in Class(alerts, hash, a) ==> Strings.AtMost(least, b)
    ensures Primary(alerts, hash, least)
    ensures forall b :: b in Class(alerts, hash, a) && Primary(alerts, hash, b) ==> b == least
  {
    ClassesAgree(alerts, hash, a, least);
    forall b | b in Class(alerts, hash, a) && Primary(alerts, hash, b) ensures b == least {
      ClassesAgree(alerts, hash, a, b);
      Strings.Total(least, b);
    }
  }

  // ---- What follows for any result that meets the promise ----

  /** The output under which a is reported. */
  lemma Home(alerts: Alerts, hash: Hasher, out: Alerts, a: Id) returns (home: Id)
    requires Deduplicated(alerts, hash, out) && a in alerts
    ensures home in out && Linked(alerts, hash, a, home)
    ensures forall h :: h in out && Linked(alerts, hash, a, h) ==> h == home
  {
    LinkedReflexive(alerts, hash, a);
    home := Strings.Least(Class(alerts, hash, a));
    PrimaryOfClass(alerts, hash, a, home);
    forall h | h in out && Linked(alerts, hash, a, h) ensures h == home {
      LinkedEnds(alerts, hash, a, h);
    }
  }

  /** Two alerts end up in the same output exactly when a chain of matches links them. */
  lemma SharedHome(alerts: Alerts, hash: Hasher, out: Alerts, a: Id, b: Id)
    requires Deduplicated(alerts, hash, out) && a in alerts && b in alerts
    ensures Linked(alerts, hash, a, b) <==>
              exists h :: h in out && Linked(alerts, hash, a, h) && Linked(alerts, hash, b, h)
  {
    if Linked(alerts, hash, a, b) {
      var h := Home(alerts, hash, out, a);
      LinkedSymmetric(alerts, hash, a, b);
      LinkedTransitive(alerts, hash, b, a, h);
    }
    if h :| h in out && Linked(alerts, hash, a, h) && Linked(alerts, hash, b, h) {
      LinkedSymmetric(alerts, hash, b, h);
      LinkedTransitive(alerts, hash, a, h, b);
    }
  }

  ghost predicate HasPeriod(alerts: Alerts, p: TimeRange) {
    exists a :: a in alerts && p in alerts[a].activePeriod
  }

  ghost predicate HasEntity(alerts: Alerts, e: Entity) {
    exists a :: a in alerts && e in alerts[a].informedEntity
  }

  /** No period and no entity is lost, and none is made up. */
  lemma Lossless(alerts: Alerts, hash: Hasher, out: Alerts)
    requires Deduplicated(alerts, hash, out)
    ensures forall p :: HasPeriod(alerts, p) <==> HasPeriod(out, p)
    ensures forall e :: HasEntity(alerts, e) <==> HasEntity(out, e)
  {
    forall a | a in alerts
      ensures forall p :: p in alerts[a].activePeriod ==> HasPeriod(out, p)
      ensures forall e :: e in alerts[a].informedEntity ==> HasEntity(out, e)
    {
      var h := Home(alerts, hash, out, a);
      LinkedSymmetric(alerts, hash, a, h);
      assert a in Class(alerts, hash, h);
    }
  }

  /** The order in which the input map is enumerated cannot show: any two results have the same ids
      with the same period sets and the same entity sets. */
  lemma OrderDoesNotShow(alerts: Alerts, hash: Hasher, out1: Alerts, out2: Alerts)
    requires Deduplicated(alerts, hash, out1) && Deduplicated(alerts, hash, out2)
    ensures out1.Keys == out2.Keys
    ensures forall a :: a in out1 ==>
              && Elements(out1[a].activePeriod) == Elements(out2[a].activePeriod)
              && Elements(out1[a].informedEntity) == Elements(out2[a].informedEntity)
  {
    assert forall a :: a in out1 <==> a in out2;
    forall a | a in out1
      ensures Elements(out1[a].activePeriod) == Elements(out2[a].activePeriod)
      ensures Elements(out1[a].informedEntity) == Elements(out2[a].informedEntity)
    {
      assert forall p :: p in out1[a].activePeriod <==> p in out2[a].activePeriod;
      assert forall e :: e in out1[a].informedEntity <==> e in out2[a].informedEntity;
    }
  }

  /** An alert that matches no other is alone in its class. */
  lemma LonelyClass(alerts: Alerts, hash: Hasher, a: Id)
    requires a in alerts && forall b :: b != a ==> !Adjacent(alerts, hash, a, b)
    ensures Class(alerts, hash, a) == {a}
  {
    LinkedReflexive(alerts, hash, a);
    forall b | b in Class(alerts, hash, a) ensures b == a {
      var path :| Chain(alerts, hash, path, a, b);
      ClosedHoldsLinked(alerts, hash, {a}, path, a, b);
    }
  }

  lemma MatchedAreNotBothPrimary(alerts: Alerts, hash: Hasher, a: Id, b: Id)
    requires a != b && Adjacent(alerts, hash, a, b)
    ensures !Primary(alerts, hash, a) || !Primary(alerts, hash, b)
  {
    LinkedReflexive(alerts, hash, a);
    LinkedStep(alerts, hash, a, a, b);
    LinkedSymmetric(alerts, hash, a, b);
    assert b in Class(alerts, hash, a) && a in Class(alerts, hash, b);
    Strings.Total(a, b);
  }

  // ---- Deduplicating a result again ----

  lemma LinkedHash(alerts: Alerts, hash: Hasher, a: Id, b: Id)
    requires Linked(alerts, hash, a, b)
    ensures a in alerts && b in alerts && hash(alerts[a].content) == hash(alerts[b].content)
  {
    LinkedEnds(alerts, hash, a, b);
    var path :| Chain(alerts, hash, path, a, b);
    var closed := set x | x in alerts && hash(alerts[x].content) == hash(alerts[a].content);
    ClosedHoldsLinked(alerts, hash, closed, path, a, b);
  }

  lemma OutputHash(alerts: Alerts, hash: Hasher, out: Alerts, a: Id)
    requires Deduplicated(alerts, hash, out) && a in out
    ensures a in alerts && hash(out[a].content) == hash(alerts[a].content)
  {
    hide Linked, Match, Arranged;
    assert MergeOf(alerts, Class(alerts, hash, a), out[a]);
    var b :| b in Class(alerts, hash, a) && out[a].content == alerts[b].content;
    LinkedHash(alerts, hash, a, b);
  }

  ghost function PeriodsOf(alerts: Alerts, ids: set<Id>): set<TimeRange> {
    set b, p | b in ids && b in alerts && p in alerts[b].activePeriod :: p
  }

  ghost function EntitiesOf(alerts: Alerts, ids: set<Id>): set<Entity> {
    set b, e | b in ids && b in alerts && e in alerts[b].informedEntity :: e
  }

  lemma MergeSets(alerts: Alerts, ids: set<Id>, merged: Alert)
    requires MergeOf(alerts, ids, merged)
    ensures Elements(merged.activePeriod) == PeriodsOf(alerts, ids)
    ensures Elements(merged.informedEntity) == EntitiesOf(alerts, ids)
  {
  }

  /** Periods with a common start are listed in the same order. */
  ghost predicate SameTies(s: seq<TimeRange>, t: seq<TimeRange>) {
    forall k :: |WithKey(s, StartKey, k)| > 1 ==> WithKey(s, StartKey, k) == WithKey(t, StartKey, k)
  }

  ghost predicate TieFree(periods: set<TimeRange>) {
    forall p, q :: p in periods && q in periods && StartKey(p) == StartKey(q) ==> p == q
  }

  lemma {:induction false} WithKeyDistinct(s: seq<TimeRange>, k: int)
    requires Distinct(s)
    ensures Distinct(WithKey(s, StartKey, k))
  {
    if s != [] {
      WithKeyDistinct(s[1..], k);
      WithKeyMembers(s[1..], StartKey, k);
      assert s[0] !in s[1..];
    }
  }

  lemma ShortRun(s: seq<TimeRange>, t: seq<TimeRange>, k: int)
    requires Distinct(t) && Elements(s) == Elements(t) && |WithKey(s, StartKey, k)| <= 1
    ensures WithKey(s, StartKey, k) == WithKey(t, StartKey, k)
  {
    var u, v := WithKey(s, StartKey, k), WithKey(t, StartKey, k);
    WithKeyMembers(s, StartKey, k);
    WithKeyMembers(t, StartKey, k);
    WithKeyDistinct(t, k);
    assert forall p :: p in s <==> p in Elements(s);
    assert forall p :: p in t <==> p in Elements(t);
    assert Elements(u) == Elements(v);
    DistinctSize(u);
    DistinctSize(v);
    if v != [] { assert v[0] in Elements(v); }
  }

  /** Lists without repetition sort alike exactly when they hold the same periods and list those with a
      common start in the same order. */
  lemma TiesDecideSort(s: seq<TimeRange>, t: seq<TimeRange>)
    requires Distinct(s) && Distinct(t)
    ensures SortBy(s, StartKey) == SortBy(t, StartKey) <==> Elements(s) == Elements(t) && SameTies(s, t)
  {
    SortsAlike(s, t, StartKey);
    if SortBy(s, StartKey) == SortBy(t, StartKey) {
      SortMembers(s, StartKey);
      SortMembers(t, StartKey);
    }
    if Elements(s) == Elements(t) && SameTies(s, t) {
      forall k ensures WithKey(s, StartKey, k) == WithKey(t, StartKey, k) {
        if |WithKey(s, StartKey, k)| <= 1 { ShortRun(s, t, k); }
      }
      assert SameRuns(s, t, StartKey);
    }
  }

  lemma TieFreeTies(s: seq<TimeRange>, t: seq<TimeRange>)
    requires Distinct(s) && TieFree(Elements(s))
    ensures SameTies(s, t)
  {
    forall k ensures |WithKey(s, StartKey, k)| <= 1 {
      var u := WithKey(s, StartKey, k);
      WithKeyDistinct(s, k);
      WithKeyMembers(s, StartKey, k);
      DistinctSize(u);
      if u != [] {
        assert forall p :: p in u ==> p in Elements(s) && u[0] in Elements(s);
        assert Elements(u) == {u[0]};
      }
    }
  }

  /** Two classes with the same content hash whose merged alerts match: their alerts name the same
      entities in all, or the same periods, where periods with a common start must also have been
      listed in the same order. */
  ghost predicate Rejoins(alerts: Alerts, hash: Hasher, out: Alerts, a: Id, b: Id) {
    && MayRejoin(alerts, hash, a, b) && a in out && b in out
    && (EntitiesOf(alerts, Class(alerts, hash, a)) == EntitiesOf(alerts, Class(alerts, hash, b))
        || SameTies(out[a].activePeriod, out[b].activePeriod))
  }

  /** The part of it that is decided by the input. */
  ghost predicate MayRejoin(alerts: Alerts, hash: Hasher, a: Id, b: Id) {
    && a != b && Primary(alerts, hash, a) && Primary(alerts, hash, b)
    && hash(alerts[a].content) == hash(alerts[b].content)
    && (EntitiesOf(alerts, Class(alerts, hash, a)) == EntitiesOf(alerts, Class(alerts, hash, b))
        || PeriodsOf(alerts, Class(alerts, hash, a)) == PeriodsOf(alerts, Class(alerts, hash, b)))
  }

  /** Without periods of a common start the input decides alone. */
  lemma RejoinsWithoutTies(alerts: Alerts, hash: Hasher, out: Alerts, a: Id, b: Id)
    requires Deduplicated(alerts, hash, out) && TieFree(PeriodsOf(alerts, Class(alerts, hash, a)))
    ensures Rejoins(alerts, hash, out, a, b) <==> MayRejoin(alerts, hash, a, b)
  {
    hide Class, Match, Tidy, SameTies, TieFree, EntitiesOf, PeriodsOf;
    if MayRejoin(alerts, hash, a, b) {
      TidyOutput(alerts, hash, out, a, b);
      MergeSets(alerts, Class(alerts, hash, a), out[a]);
      TidyIsDistinct(out[a]);
      TieFreeTies(out[a].activePeriod, out[b].activePeriod);
    }
  }

  lemma TidyIsDistinct(a: Alert)
    requires Tidy(a)
    ensures Distinct(a.activePeriod)
  {
  }

  lemma TidyOutput(alerts: Alerts, hash: Hasher, out: Alerts, a: Id, b: Id)
    requires Deduplicated(alerts, hash, out) && a in out && b in alerts && a != b
    requires a in alerts && hash(alerts[a].content) == hash(alerts[b].content)
    ensures Tidy(out[a]) && MergeOf(alerts, Class(alerts, hash, a), out[a])
  {
    hide Tidy, Class, MergeOf, Primary;
  }

  /** Two outputs match exactly when their classes rejoin. */
  lemma OutputsMatch(alerts: Alerts, hash: Hasher, out: Alerts, a: Id, b: Id)
    requires Deduplicated(alerts, hash, out) && a != b
    ensures Adjacent(out, hash, a, b) <==> Rejoins(alerts, hash, out, a, b)
  {
    hide Class, MergeOf, Tidy, SameTies, EntitiesOf, PeriodsOf, SortBy, StartKey;
    if a in out && b in out {
      OutputHash(alerts, hash, out, a);
      OutputHash(alerts, hash, out, b);
      if hash(alerts[a].content) == hash(alerts[b].content) {
        TidyOutput(alerts, hash, out, a, b);
        TidyOutput(alerts, hash, out, b, a);
        MergeSets(alerts, Class(alerts, hash, a), out[a]);
        MergeSets(alerts, Class(alerts, hash, b), out[b]);
        TidyIsDistinct(out[a]);
        TidyIsDistinct(out[b]);
        TiesDecideSort(out[a].activePeriod, out[b].activePeriod);
      }
    }
  }

  /** The same ids, each with the same periods and entities. */
  ghost predicate SameAlerts(a: Alerts, b: Alerts) {
    && a.Keys == b.Keys
    && forall x :: x in a ==>
         && Elements(a[x].activePeriod) == Elements(b[x].activePeriod)
         && Elements(a[x].informedEntity) == Elements(b[x].informedEntity)
  }

  lemma MergeOfOne(alerts: Alerts, a: Id, merged: Alert)
    requires a in alerts && MergeOf(alerts, {a}, merged)
    ensures Elements(merged.activePeriod) == Elements(alerts[a].activePeriod)
    ensures Elements(merged.informedEntity) == Elements(alerts[a].informedEntity)
  {
  }

  /** Deduplicating again changes ids, periods or entities exactly when two classes rejoin, and then the
      second result has fewer alerts. */
  lemma AgainMergesMore(alerts: Alerts, hash: Hasher, out: Alerts, again: Alerts)
    requires Deduplicated(alerts, hash, out) && Deduplicated(out, hash, again)
    ensures SameAlerts(out, again) <==> forall a, b :: !Rejoins(alerts, hash, out, a, b)
    ensures !SameAlerts(out, again) ==> again.Keys < out.Keys
  {
    hide Adjacent, Class, Match, MergeOf, Rejoins, Arranged;
    forall a | a in again ensures a in out { assert Primary(out, hash, a); }
    forall a, b ensures Rejoins(alerts, hash, out, a, b) <==> a != b && Adjacent(out, hash, a, b) {
      if a != b { OutputsMatch(alerts, hash, out, a, b); }
      if Rejoins(alerts, hash, out, a, b) { RejoinsDiffer(alerts, hash, out, a, b); }
    }
    if forall a, b :: !Rejoins(alerts, hash, out, a, b) {
      forall a | a in out ensures Primary(out, hash, a) && Class(out, hash, a) == {a} {
        LonelyClass(out, hash, a);
        Strings.Total(a, a);
      }
      assert forall a :: a in out ==> a in again;
      forall a | a in out
        ensures Elements(out[a].activePeriod) == Elements(again[a].activePeriod)
        ensures Elements(out[a].informedEntity) == Elements(again[a].informedEntity)
      {
        MergeOfOne(out, a, again[a]);
      }
    } else {
      var a, b :| Rejoins(alerts, hash, out, a, b);
      MatchedAreNotBothPrimary(out, hash, a, b);
      AdjacentEnds(out, hash, a, b);
    }
  }

  lemma RejoinsDiffer(alerts: Alerts, hash: Hasher, out: Alerts, a: Id, b: Id)
    requires Rejoins(alerts, hash, out, a, b)
    ensures a != b
  {
  }

  lemma AdjacentEnds(alerts: Alerts, hash: Hasher, a: Id, b: Id)
    requires Adjacent(alerts, hash, a, b)
    ensures a in alerts && b in alerts
  {
  }

  /** Whether it can happen is decided by the input: if two classes may rejoin, some result has their
      periods in the same order, and then they do. */
  lemma SomeResultRejoins(alerts: Alerts, hash: Hasher, out: Alerts, a: Id, b: Id) returns (other: Alerts)
    requires Deduplicated(alerts, hash, out) && MayRejoin(alerts, hash, a, b)
    ensures Deduplicated(alerts, hash, other) && Rejoins(alerts, hash, other, a, b)
  {
    hide Class, EntitiesOf, PeriodsOf, MergeOf;
    if EntitiesOf(alerts, Class(alerts, hash, a)) == EntitiesOf(alerts, Class(alerts, hash, b)) {
      other := out;
    } else {
      TidyOutput(alerts, hash, out, a, b);
      TidyOutput(alerts, hash, out, b, a);
      MergeSets(alerts, Class(alerts, hash, a), out[a]);
      MergeSets(alerts, Class(alerts, hash, b), out[b]);
      var merged := out[b].(activePeriod := out[a].activePeriod);
      SamePeriodsMerge(alerts, Class(alerts, hash, b), out[b], merged);
      other := out[b := merged];
    }
  }

  lemma SamePeriodsMerge(alerts: Alerts, ids: set<Id>, merged: Alert, other: Alert)
    requires MergeOf(alerts, ids, merged) && other == merged.(activePeriod := other.activePeriod)
    requires Elements(other.activePeriod) == Elements(merged.activePeriod)
    ensures MergeOf(alerts, ids, other)
  {
    assert forall p :: p in other.activePeriod <==> p in Elements(other.activePeriod);
    assert forall p :: p in merged.activePeriod <==> p in Elements(merged.activePeriod);
  }

  // ---- A second pass can find more: of these three alerts the first pass merges only two ----

  const MORNING := TimeRange(Some(1), None)
  const EVENING := TimeRange(Some(2), None)
  const RED := Entity(None, Some("R"), None, None, None, None)
  const BLUE := Entity(None, Some("B"), None, None, None, None)
  const THREE: Alerts := map["A" := Alert("", "", [MORNING], [RED]), "B" := Alert("", "", [EVENING], [RED]),
                             "C" := Alert("", "", [MORNING, EVENING], [BLUE])]
  const TWO: Alerts := map["A" := Alert("", "", [MORNING, EVENING], [RED]),
                           "C" := Alert("", "", [MORNING, EVENING], [BLUE])]

  lemma NoMatchWithC(a: Alert, c: Alert)
    requires a.informedEntity == [RED] && c.informedEntity == [BLUE]
    requires |a.activePeriod| != |c.activePeriod|
    ensures !Match(a, c) && !Match(c, a)
  {
    SortMembers(a.activePeriod, StartKey);
    SortMembers(c.activePeriod, StartKey);
    RedIsNotBlue();
  }

  lemma RedIsNotBlue()
    ensures RED != BLUE && Elements([RED]) != Elements([BLUE])
  {
    assert "R"[0] != "B"[0];
    assert RED in Elements([RED]) && RED !in Elements([BLUE]);
  }

  lemma MatchEntities(a: Alert, b: Alert)
    requires a.informedEntity == b.informedEntity || a.activePeriod == b.activePeriod
    ensures Match(a, b)
  {
  }

  lemma ThreeMatches(hash: Hasher)
    ensures Adjacent(THREE, hash, "A", "B")
    ensures forall x, y :: Adjacent(THREE, hash, x, y) ==>
              (x == "C" <==> y == "C") && x in {"A", "B", "C"} && y in {"A", "B", "C"}
  {
    hide Match;
    NoMatchWithC(THREE["A"], THREE["C"]);
    NoMatchWithC(THREE["B"], THREE["C"]);
    MatchEntities(THREE["A"], THREE["B"]);
  }

  lemma ThreeClasses(hash: Hasher)
    ensures Class(THREE, hash, "A") == {"A", "B"} == Class(THREE, hash, "B") && Class(THREE, hash, "C") == {"C"}
  {
    hide Adjacent;
    ThreeMatches(hash);
    LonelyClass(THREE, hash, "C");
    LinkedReflexive(THREE, hash, "A");
    LinkedStep(THREE, hash, "A", "A", "B");
    ClassesAgree(THREE, hash, "A", "B");
    forall b | b in Class(THREE, hash, "A") ensures b in {"A", "B"} {
      var path :| Chain(THREE, hash, path, "A", b);
      ClosedHoldsLinked(THREE, hash, {"A", "B"}, path, "A", b);
    }
  }

  lemma MergeSelf(alerts: Alerts, a: Id)
    requires a in alerts
    ensures MergeOf(alerts, {a}, alerts[a])
  {
  }

  lemma ThreePrimaries(hash: Hasher)
    ensures forall a :: Primary(THREE, hash, a) <==> a == "A" || a == "C"
  {
    hide Class;
    ThreeClasses(hash);
    assert Strings.AtMost("A", "A") && Strings.AtMost("A", "B");
    assert Strings.AtMost("C", "C") && !Strings.AtMost("B", "A");
  }

  lemma ThreeArranged(hash: Hasher)
    ensures Arranged(THREE, hash, "A", TWO["A"]) && Arranged(THREE, hash, "C", TWO["C"])
  {
    assert THREE["A"].content == THREE["B"].content == THREE["C"].content;
  }

  lemma ThreeMerged()
    ensures MergeOf(THREE, {"A", "B"}, TWO["A"])
  {
    assert MORNING in THREE["A"].activePeriod && EVENING in THREE["B"].activePeriod && RED in THREE["A"].informedEntity;
  }

  lemma SecondPassMerges(hash: Hasher)
    ensures Deduplicated(THREE, hash, TWO)
    ensures Adjacent(TWO, hash, "A", "C")
  {
    hide Class, Match, Arranged, Primary, MergeOf;
    ThreeClasses(hash);
    ThreePrimaries(hash);
    ThreeArranged(hash);
    ThreeMerged();
    MergeSelf(THREE, "C");
    assert Adjacent(TWO, hash, "A", "C") by { MatchEntities(TWO["A"], TWO["C"]); }
  }

  // ---- Equal starts: the order in which a merged alert lists its periods decides ----

  const SHORT := TimeRange(Some(1), Some(2))
  const LONG := TimeRange(Some(1), Some(3))
  const TIED: Alerts := map["A" := Alert("", "", [SHORT, LONG], [RED]), "B" := Alert("", "", [LONG, SHORT], [BLUE])]
  const ALIGNED: Alerts := map["A" := Alert("", "", [SHORT, LONG], [RED]), "B" := Alert("", "", [SHORT, LONG], [BLUE])]

  /** The same two periods in different orders do not match, since they are compared after a sort by
      start alone. */
  lemma TiedDoNotMatch()
    ensures Elements(TIED["A"].activePeriod) == Elements(TIED["B"].activePeriod)
    ensures !Match(TIED["A"], TIED["B"]) && !Match(TIED["B"], TIED["A"])
  {
    RedIsNotBlue();
    var s, t := [SHORT, LONG], [LONG, SHORT];
    SortsAlike(s, t, StartKey);
    assert s[1..] == [LONG] && t[1..] == [SHORT] && s[1..][1..] == [] && t[1..][1..] == [];
    assert WithKey(s, StartKey, 1)[0] == SHORT && WithKey(t, StartKey, 1)[0] == LONG;
    assert Elements(s) == {SHORT, LONG} == Elements(t);
  }

  lemma TiedClasses(hash: Hasher)
    ensures Class(TIED, hash, "A") == {"A"} && Class(TIED, hash, "B") == {"B"}
    ensures forall a :: Primary(TIED, hash, a) <==> a == "A" || a == "B"
  {
    hide Match, Class;
    TiedDoNotMatch();
    LonelyClass(TIED, hash, "A");
    LonelyClass(TIED, hash, "B");
    assert Strings.AtMost("A", "A") && Strings.AtMost("B", "B");
  }

  lemma TiedArranged(hash: Hasher)
    ensures Arranged(TIED, hash, "A", TIED["A"]) && Arranged(TIED, hash, "B", TIED["B"])
    ensures Arranged(TIED, hash, "B", ALIGNED["B"])
  {
    assert TIED["A"].content == TIED["B"].content;
  }

  /** Both are results for these two alerts; a second pass merges the one and leaves the other. */
  lemma TieOrderDecides(hash: Hasher)
    ensures Deduplicated(TIED, hash, TIED) && !Adjacent(TIED, hash, "A", "B")
    ensures Deduplicated(TIED, hash, ALIGNED) && Adjacent(ALIGNED, hash, "A", "B")
  {
    hide Match, Class, Arranged, Primary, MergeOf;
    TiedClasses(hash);
    TiedArranged(hash);
    MergeSelf(TIED, "A");
    MergeSelf(TIED, "B");
    TiedDoNotMatch();
    assert TIED["A"].activePeriod == ALIGNED["B"].activePeriod;
    SamePeriodsMerge(TIED, {"B"}, TIED["B"], ALIGNED["B"]);
    MatchEntities(ALIGNED["A"], ALIGNED["B"]);
  }
}
