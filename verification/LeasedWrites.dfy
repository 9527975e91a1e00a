/** Writing a plan of leased keys into a key-value store, either in full or skipping the keys whose
    stored value already agrees (backend/src/aspen/aspen_assignment.rs:187-240,
    backend/src/alpenrose/leader_job.rs:140-169). */
module LeasedWrites {

  datatype Entry<V> = Entry(value: V, lease: int)

  type Plan<K, V> = seq<(K, Entry<V>)>

  /** Every key is put. */
  function Rewrite<K, V>(store: map<K, Entry<V>>, plan: Plan<K, V>): map<K, Entry<V>> {
    if plan == [] then store
    else
      var n := |plan| - 1;
      Rewrite(store, plan[..n])[plan[n].0 := plan[n].1]
  }

  predicate Agrees<K, V(==)>(store: map<K, Entry<V>>, put: (K, Entry<V>)) {
    put.0 in store && store[put.0].value == put.1.value
  }

  /** A key is put only if the value read before the round differs; leases are not compared. */
  function Differential<K, V(==)>(store: map<K, Entry<V>>, before: map<K, Entry<V>>, plan: Plan<K, V>)
    : map<K, Entry<V>>
  {
    if plan == [] then store
    else
      var n := |plan| - 1;
      var rest := Differential(store, before, plan[..n]);
      if Agrees(before, plan[n]) then rest else rest[plan[n].0 := plan[n].1]
  }

  /** No later put for the same key. */
  ghost predicate IsLast<K, V>(plan: Plan<K, V>, i: nat) {
    i < |plan| && forall j :: i < j < |plan| ==> plan[j].0 != plan[i].0
  }

  ghost predicate Writes<K, V>(plan: Plan<K, V>, k: K) {
    exists i :: 0 <= i < |plan| && plan[i].0 == k
  }

  /** Where a put agrees in value it agrees in its lease too. */
  ghost predicate SameLeases<K, V>(store: map<K, Entry<V>>, plan: Plan<K, V>) {
    forall i :: 0 <= i < |plan| && Agrees(store, plan[i]) ==> store[plan[i].0] == plan[i].1
  }

  /** Whenever the last put for a key agrees with the store, so do all earlier puts for that key. */
  ghost predicate Steady<K, V>(store: map<K, Entry<V>>, plan: Plan<K, V>) {
    forall i, j :: 0 <= i < j < |plan| && plan[i].0 == plan[j].0 && IsLast(plan, j) && Agrees(store, plan[j]) ==>
      Agrees(store, plan[i])
  }

  lemma {:induction false} RewriteLast<K, V>(store: map<K, Entry<V>>, plan: Plan<K, V>, j: nat)
    requires IsLast(plan, j)
    ensures plan[j].0 in Rewrite(store, plan) && Rewrite(store, plan)[plan[j].0] == plan[j].1
  {
    var n := |plan| - 1;
    if j < n {
      assert IsLast(plan[..n], j);
      RewriteLast(store, plan[..n], j);
    }
  }

  lemma {:induction false} RewriteOther<K, V>(store: map<K, Entry<V>>, plan: Plan<K, V>, k: K)
    requires !Writes(plan, k)
    ensures k in Rewrite(store, plan) <==> k in store
    ensures k in store ==> Rewrite(store, plan)[k] == store[k]
  {
    if plan != [] {
      var n := |plan| - 1;
      assert plan[n].0 != k;
      forall i | 0 <= i < n ensures plan[..n][i].0 != k { assert plan[i].0 != k; }
      RewriteOther(store, plan[..n], k);
    }
  }

  /** After the last differing put for a key, the agreeing ones leave it alone. */
  lemma {:induction false} DifferentialLast<K, V>(store: map<K, Entry<V>>, before: map<K, Entry<V>>,
                                                  plan: Plan<K, V>, i: nat)
    requires i < |plan| && !Agrees(before, plan[i])
    requires forall j :: i < j < |plan| && plan[j].0 == plan[i].0 ==> Agrees(before, plan[j])
    ensures plan[i].0 in Differential(store, before, plan) && Differential(store, before, plan)[plan[i].0] == plan[i].1
  {
    var n := |plan| - 1;
    if i < n {
      DifferentialLast(store, before, plan[..n], i);
    }
  }

  lemma {:induction false} DifferentialOther<K, V>(store: map<K, Entry<V>>, before: map<K, Entry<V>>,
                                                   plan: Plan<K, V>, k: K)
    requires forall j :: 0 <= j < |plan| && plan[j].0 == k ==> Agrees(before, plan[j])
    ensures k in Differential(store, before, plan) <==> k in store
    ensures k in store ==> Differential(store, before, plan)[k] == store[k]
  {
    if plan != [] {
      var n := |plan| - 1;
      DifferentialOther(store, before, plan[..n], k);
    }
  }

  /** A key keeps its entry with its old lease if every put for it has the stored value, whatever lease the
      puts name. */
  lemma LeaseIsKept<K, V>(store: map<K, Entry<V>>, plan: Plan<K, V>, k: K)
    requires k in store
    requires forall j :: 0 <= j < |plan| && plan[j].0 == k ==> plan[j].1.value == store[k].value
    ensures k in Differential(store, store, plan) && Differential(store, store, plan)[k] == store[k]
  {
    DifferentialOther(store, store, plan, k);
  }

  /** The last put for a key with another value than the stored one gives it value and lease. */
  lemma LeaseIsReplaced<K, V>(store: map<K, Entry<V>>, plan: Plan<K, V>, i: nat)
    requires i < |plan| && (plan[i].0 in store ==> plan[i].1.value != store[plan[i].0].value)
    requires forall j :: i < j < |plan| && plan[j].0 == plan[i].0 ==>
               plan[i].0 in store && plan[j].1.value == store[plan[i].0].value
    ensures plan[i].0 in Differential(store, store, plan) && Differential(store, store, plan)[plan[i].0] == plan[i].1
  {
    DifferentialLast(store, store, plan, i);
  }

  lemma {:induction false} LastDiffering<K, V>(store: map<K, Entry<V>>, plan: Plan<K, V>, i: nat) returns (last: nat)
    requires i < |plan| && !Agrees(store, plan[i])
    ensures last < |plan| && plan[last].0 == plan[i].0 && !Agrees(store, plan[last])
    ensures forall j :: last < j < |plan| && plan[j].0 == plan[i].0 ==> Agrees(store, plan[j])
    decreases |plan| - i
  {
    if j :| i < j < |plan| && plan[j].0 == plan[i].0 && !Agrees(store, plan[j]) {
      last := LastDiffering(store, plan, j);
    } else {
      last := i;
    }
  }

  lemma {:induction false} LastWrite<K, V>(plan: Plan<K, V>, i: nat) returns (last: nat)
    requires i < |plan|
    ensures i <= last < |plan| && plan[last].0 == plan[i].0 && IsLast(plan, last)
    decreases |plan| - i
  {
    if j :| i < j < |plan| && plan[j].0 == plan[i].0 {
      last := LastWrite(plan, j);
    } else {
      last := i;
    }
  }

  /** The two agree on one key if its puts are steady. */
  lemma AgreeOnKey<K, V>(store: map<K, Entry<V>>, plan: Plan<K, V>, k: K)
    requires SameLeases(store, plan) && Steady(store, plan)
    ensures k in Differential(store, store, plan) <==> k in Rewrite(store, plan)
    ensures k in Rewrite(store, plan) ==> Differential(store, store, plan)[k] == Rewrite(store, plan)[k]
  {
    hide Agrees;
    if Writes(plan, k) {
      var i :| 0 <= i < |plan| && plan[i].0 == k;
      var last := LastWrite(plan, i);
      RewriteLast(store, plan, last);
      if Agrees(store, plan[last]) {
        forall j | 0 <= j < |plan| && plan[j].0 == k ensures Agrees(store, plan[j]) {
        }
        DifferentialOther(store, store, plan, k);
        AgreesHas(store, plan[last]);
      } else {
        DifferentialLast(store, store, plan, last);
      }
    } else {
      RewriteOther(store, plan, k);
      DifferentialOther(store, store, plan, k);
    }
  }

  lemma AgreesHas<K, V>(store: map<K, Entry<V>>, put: (K, Entry<V>))
    requires Agrees(store, put)
    ensures put.0 in store
  {
  }

  /** Skipping agreeing keys leaves the same store as rewriting everything exactly when no key is
      written twice with its stored value coming last. */
  lemma DifferentialIff<K, V>(store: map<K, Entry<V>>, plan: Plan<K, V>)
    requires SameLeases(store, plan)
    ensures Differential(store, store, plan) == Rewrite(store, plan) <==> Steady(store, plan)
  {
    if Steady(store, plan) {
      var d, r := Differential(store, store, plan), Rewrite(store, plan);
      forall k | k in d.Keys + r.Keys ensures k in d && k in r && d[k] == r[k] {
        AgreeOnKey(store, plan, k);
      }
      assert d.Keys == r.Keys;
      assert d == r;
    } else {
      var i, j :| 0 <= i < j < |plan| && plan[i].0 == plan[j].0 && IsLast(plan, j) && Agrees(store, plan[j])
                  && !Agrees(store, plan[i]);
      var last := LastDiffering(store, plan, i);
      DifferentialLast(store, store, plan, last);
      RewriteLast(store, plan, j);
    }
  }

  ghost predicate DistinctKeys<K, V>(plan: Plan<K, V>) {
    forall i, j :: 0 <= i < j < |plan| ==> plan[i].0 != plan[j].0
  }

  lemma DistinctIsSteady<K, V>(store: map<K, Entry<V>>, plan: Plan<K, V>)
    requires DistinctKeys(plan)
    ensures Steady(store, plan)
  {
  }

  /** Whatever a differential round leaves was there before or is one of its puts. */
  lemma {:induction false} DifferentialFrom<K, V>(store: map<K, Entry<V>>, before: map<K, Entry<V>>,
                                                  plan: Plan<K, V>, k: K)
    requires k in Differential(store, before, plan)
    ensures (k in store && Differential(store, before, plan)[k] == store[k])
         || exists i :: 0 <= i < |plan| && plan[i] == (k, Differential(store, before, plan)[k])
  {
    if plan != [] {
      var n := |plan| - 1;
      if !(!Agrees(before, plan[n]) && plan[n].0 == k) {
        DifferentialFrom(store, before, plan[..n], k);
        if i :| 0 <= i < n && plan[..n][i] == (k, Differential(store, before, plan)[k]) {
          assert plan[i] == (k, Differential(store, before, plan)[k]);
        }
      }
    }
  }
}
