/**
 * Extended polymerization (day14.rs): a polymer is kept as the number of
 * times each adjacent pair of elements occurs; a rule "XY -> Z" turns every
 * XY into XZ and ZY. The answer is the spread between the most and least
 * common element after a number of steps.
 */
module Polymerization {
  import opened Sorting

  type Pair = string

  /** `map.get(&k).unwrap_or(&0)`. */
  function Get<K>(m: map<K, nat>, k: K): nat {
    if k in m then m[k] else 0
  }

  // ---------------------------------------------------------------------------
  // Totals over a map, whatever its iteration order.

  ghost function PickKey<K>(m: map<K, nat>): (k: K)
    requires m != map[]
    ensures k in m
  {
    var k :| k in m; k
  }

  /** The sum of the counts of a map. */
  ghost function Total<K>(m: map<K, nat>): nat
    decreases |m.Keys|
  {
    if m == map[] then 0
    else
      var k := PickKey(m);
      assert (m - {k}).Keys < m.Keys;
      m[k] + Total(m - {k})
  }

  /** Any entry can be taken out of the total first. */
  lemma {:induction false} TotalRemove<K>(m: map<K, nat>, k: K)
    requires k in m
    ensures Total(m) == m[k] + Total(m - {k})
    decreases |m.Keys|
  {
    var j := PickKey(m);
    if j != k {
      assert (m - {j}).Keys < m.Keys && (m - {k}).Keys < m.Keys;
      TotalRemove(m - {j}, k);
      TotalRemove(m - {k}, j);
      assert m - {j} - {k} == m - {k} - {j};
    }
  }

  /** Setting one entry changes the total by the difference. */
  lemma TotalUpdate<K>(m: map<K, nat>, k: K, v: nat)
    ensures Total(m[k := v]) + Get(m, k) == Total(m) + v
  {
    TotalRemove(m[k := v], k);
    assert m[k := v] - {k} == m - {k};
    if k in m {
      TotalRemove(m, k);
    } else {
      assert m - {k} == m;
    }
  }

  lemma TotalEmpty<K>(m: map<K, nat>)
    requires Total(m) > 0
    ensures m != map[]
  {
  }

  /** `order` lists every key of `m` exactly once: one iteration order of the hash map. */
  predicate IsOrder<K>(order: seq<K>, m: map<K, nat>) {
    (forall i :: 0 <= i < |order| ==> order[i] in m) &&
    (forall k :: k in m ==> k in order) &&
    (forall i, j :: 0 <= i < j < |order| ==> order[i] != order[j])
  }

  /** Taking one more key out of the keys still to visit keeps the visited keys distinct. */
  lemma OrderSnoc<K>(order: seq<K>, m: map<K, nat>, remaining: set<K>, p: K)
    requires forall i :: 0 <= i < |order| ==> order[i] in m && order[i] !in remaining
    requires forall i, j :: 0 <= i < j < |order| ==> order[i] != order[j]
    requires p in m && p in remaining
    ensures forall i :: 0 <= i < |order + [p]| ==> (order + [p])[i] in m && (order + [p])[i] !in remaining - {p}
    ensures forall i, j :: 0 <= i < j < |order + [p]| ==> (order + [p])[i] != (order + [p])[j]
  {
  }

  /** The counts of the keys in `order`, added up in that order. */
  function SumOrder<K>(m: map<K, nat>, order: seq<K>): nat
    requires forall i :: 0 <= i < |order| ==> order[i] in m
  {
    if order == [] then 0 else SumOrder(m, order[..|order| - 1]) + m[order[|order| - 1]]
  }

  /** Adding up along any iteration order gives the total. */
  lemma {:induction false} SumOrderTotal<K>(m: map<K, nat>, order: seq<K>)
    requires IsOrder(order, m)
    ensures SumOrder(m, order) == Total(m)
    decreases |order|
  {
    if order == [] {
      assert m.Keys == {};
    } else {
      var k := order[|order| - 1];
      var init := order[..|order| - 1];
      var rest := m - {k};
      assert IsOrder(init, rest) by {
        forall x | x in rest ensures x in init {
          var i :| 0 <= i < |order| && order[i] == x;
          assert i != |order| - 1;
          assert init[i] == x;
        }
      }
      SumOrderTotal(rest, init);
      SumOrderRestrict(m, rest, init);
      TotalRemove(m, k);
    }
  }

  /** The sum only reads the listed keys. */
  lemma {:induction false} SumOrderRestrict<K>(m: map<K, nat>, m': map<K, nat>, order: seq<K>)
    requires forall i :: 0 <= i < |order| ==> order[i] in m && order[i] in m' && m[order[i]] == m'[order[i]]
    ensures SumOrder(m, order) == SumOrder(m', order)
  {
    if order != [] {
      SumOrderRestrict(m, m', order[..|order| - 1]);
    }
  }

  // ---------------------------------------------------------------------------
  // Pairs of the template.

  /** The pair of elements at `i` and `i + 1`. */
  function PairAt(t: string, i: nat): Pair
    requires i + 1 < |t|
  {
    [t[i], t[i + 1]]
  }

  /** The pair counts `new` builds: each adjacent pair of the template counted once per place. */
  function PairCounts(t: string): (r: map<Pair, nat>)
    ensures Positive(r)
  {
    if |t| < 2 then map[]
    else
      var init := t[..|t| - 1];
      var m := PairCounts(init);
      var p := PairAt(t, |t| - 2);
      m[p := Get(m, p) + 1]
  }

  /** A template of `n` elements has `n - 1` pairs. */
  lemma {:induction false} PairCountsTotal(t: string)
    requires |t| >= 1
    ensures Total(PairCounts(t)) == |t| - 1
  {
    if |t| >= 2 {
      var m := PairCounts(t[..|t| - 1]);
      PairCountsTotal(t[..|t| - 1]);
      TotalUpdate(m, PairAt(t, |t| - 2), Get(m, PairAt(t, |t| - 2)) + 1);
    }
  }

  /** The pairs counted are exactly the adjacent pairs of the template. */
  lemma {:induction false} PairCountsKeys(t: string, k: Pair)
    ensures k in PairCounts(t) <==> exists i :: 0 <= i < |t| - 1 && PairAt(t, i) == k
  {
    if |t| >= 2 {
      var init := t[..|t| - 1];
      PairCountsKeys(init, k);
      assert forall i :: 0 <= i < |init| - 1 ==> PairAt(init, i) == PairAt(t, i);
      if k in PairCounts(t) && k != PairAt(t, |t| - 2) {
        var i :| 0 <= i < |init| - 1 && PairAt(init, i) == k;
        assert PairAt(t, i) == k;
      }
    }
  }

  // ---------------------------------------------------------------------------
  // Rules.

  /** The two pairs a rule "XY -> Z" turns XY into: XZ and ZY. */
  function Products(from: string, to: string): (string, string)
    requires |from| >= 1
  {
    (from[..1] + to, to + from[1..])
  }

  /** The rule map built from "from -> to" lines; a later line for the same pair replaces an earlier one. */
  function RulesFrom(lines: seq<(string, string)>): map<Pair, (Pair, Pair)>
    requires forall i :: 0 <= i < |lines| ==> |lines[i].0| >= 1
  {
    if lines == [] then map[]
    else
      var last := lines[|lines| - 1];
      RulesFrom(lines[..|lines| - 1])[last.0 := Products(last.0, last.1)]
  }

  /** Every pair with a line has a rule, and no other. */
  lemma {:induction false} RulesFromKeys(lines: seq<(string, string)>, k: Pair)
    requires forall i :: 0 <= i < |lines| ==> |lines[i].0| >= 1
    ensures k in RulesFrom(lines) <==> exists i :: 0 <= i < |lines| && lines[i].0 == k
  {
    if lines != [] {
      var init := lines[..|lines| - 1];
      RulesFromKeys(init, k);
      assert forall i :: 0 <= i < |init| ==> init[i] == lines[i];
    }
  }

  /** The last line for a pair decides its products. */
  lemma {:induction false} RuleProducts(lines: seq<(string, string)>, i: int)
    requires forall j :: 0 <= j < |lines| ==> |lines[j].0| >= 1
    requires 0 <= i < |lines| && forall j :: i < j < |lines| ==> lines[j].0 != lines[i].0
    ensures lines[i].0 in RulesFrom(lines) && RulesFrom(lines)[lines[i].0] == Products(lines[i].0, lines[i].1)
  {
    if i < |lines| - 1 {
      var init := lines[..|lines| - 1];
      RuleProducts(init, i);
    }
  }

  /** A two-letter rule "XY -> Z" yields the pairs XZ and ZY. */
  lemma ProductsOfPair(x: char, y: char, z: char)
    ensures Products([x, y], [z]) == ([x, z], [z, y])
  {
    assert [x, y][..1] == [x] && [x, y][1..] == [y];
    assert [x] + [z] == [x, z] && [z] + [y] == [z, y];
  }

  // ---------------------------------------------------------------------------
  // One step.

  /**
   * The count of one pair added into the new map, as `step` writes it: when
   * both products are the same pair, the entry becomes twice the existing
   * entry plus the count.
   */
  function AddAsWritten(m: map<Pair, nat>, products: (Pair, Pair), count: nat): map<Pair, nat> {
    if products.0 == products.1 then m[products.0 := 2 * (Get(m, products.0) + count)]
    else m[products.0 := Get(m, products.0) + count][products.1 := Get(m, products.1) + count]
  }

  /** The count of one pair added into the new map: each product gains the count, a pair that is both products twice. */
  function Add(m: map<Pair, nat>, products: (Pair, Pair), count: nat): map<Pair, nat> {
    if products.0 == products.1 then m[products.0 := Get(m, products.0) + 2 * count]
    else
      var m1 := m[products.0 := Get(m, products.0) + count];
      m1[products.1 := Get(m1, products.1) + count]
  }

  /** Adding counts only ever introduces the two products. */
  lemma AddKeys(m: map<Pair, nat>, products: (Pair, Pair), count: nat)
    ensures Add(m, products, count).Keys == m.Keys + {products.0, products.1}
  {
  }

  /** Adding a pair's count raises the total by twice the count. */
  lemma AddTotal(m: map<Pair, nat>, products: (Pair, Pair), count: nat)
    ensures Total(Add(m, products, count)) == Total(m) + 2 * count
  {
    hide Total;
    var p := products.0;
    var q := products.1;
    if p == q {
      TotalUpdate(m, p, Get(m, p) + 2 * count);
    } else {
      var m1 := m[p := Get(m, p) + count];
      assert Add(m, products, count) == m1[q := Get(m1, q) + count];
      TotalUpdate(m, p, Get(m, p) + count);
      TotalUpdate(m1, q, Get(m1, q) + count);
    }
  }

  lemma AddDistinct(m: map<Pair, nat>, products: (Pair, Pair), count: nat)
    requires products.0 != products.1
    ensures Add(m, products, count) == m[products.0 := Get(m, products.0) + count][products.1 := Get(m, products.1) + count]
  {
    var m1 := m[products.0 := Get(m, products.0) + count];
    assert Get(m1, products.1) == Get(m, products.1);
  }

  /**
   * The closure `step` folds with: both products gain the count; when they
   * are one pair, it gains twice the count (`step` as written doubles the
   * existing entry as well, see `AddAsWritten`).
   */
  method Accumulate(m: map<Pair, nat>, rule1: Pair, rule2: Pair, count: nat) returns (m': map<Pair, nat>)
    ensures m' == Add(m, (rule1, rule2), count)
  {
    if rule1 == rule2 {
      var newCount := Get(m, rule1) + 2 * count;
      m' := m[rule1 := newCount];
    } else {
      var count1 := Get(m, rule1) + count;
      var count2 := Get(m, rule2) + count;
      m' := m[rule1 := count1];
      m' := m'[rule2 := count2];
      AddDistinct(m, (rule1, rule2), count);
    }
  }

  /** Every listed pair has a count and a rule; `rules.get(pair).unwrap()` needs the rule. */
  predicate Ruled(state: map<Pair, nat>, rules: map<Pair, (Pair, Pair)>, order: seq<Pair>) {
    forall i :: 0 <= i < |order| ==> order[i] in state && order[i] in rules
  }

  /** `step` as written, folding the pairs in the iteration order `order`. */
  function StepCountsAsWritten(state: map<Pair, nat>, rules: map<Pair, (Pair, Pair)>, order: seq<Pair>): map<Pair, nat>
    requires Ruled(state, rules, order)
  {
    if order == [] then map[]
    else
      var p := order[|order| - 1];
      AddAsWritten(StepCountsAsWritten(state, rules, order[..|order| - 1]), rules[p], state[p])
  }

  /** `step` with a doubled pair counted as intended, folding the pairs in the iteration order `order`. */
  function StepCounts(state: map<Pair, nat>, rules: map<Pair, (Pair, Pair)>, order: seq<Pair>): map<Pair, nat>
    requires Ruled(state, rules, order)
  {
    if order == [] then map[]
    else
      var p := order[|order| - 1];
      var init := order[..|order| - 1];
      assert forall i :: 0 <= i < |init| ==> init[i] == order[i];
      Add(StepCounts(state, rules, init), rules[p], state[p])
  }

  lemma StepCountsSnoc(state: map<Pair, nat>, rules: map<Pair, (Pair, Pair)>, order: seq<Pair>, p: Pair)
    requires Ruled(state, rules, order) && p in state && p in rules
    ensures Ruled(state, rules, order + [p])
    ensures StepCounts(state, rules, order + [p]) == Add(StepCounts(state, rules, order), rules[p], state[p])
  {
    assert (order + [p])[..|order|] == order;
  }

  /** Each pair's count reappears twice, once in each product. */
  lemma {:induction false} StepSum(state: map<Pair, nat>, rules: map<Pair, (Pair, Pair)>, order: seq<Pair>)
    requires Ruled(state, rules, order)
    ensures Total(StepCounts(state, rules, order)) == 2 * SumOrder(state, order)
  {
    if order != [] {
      var init := order[..|order| - 1];
      var p := order[|order| - 1];
      StepSum(state, rules, init);
      AddTotal(StepCounts(state, rules, init), rules[p], state[p]);
    }
  }

  /** A step doubles the number of pairs: the polymer grows from n to 2n - 1 elements. */
  lemma StepDoubles(state: map<Pair, nat>, rules: map<Pair, (Pair, Pair)>, order: seq<Pair>)
    requires Ruled(state, rules, order) && IsOrder(order, state)
    ensures Total(StepCounts(state, rules, order)) == 2 * Total(state)
  {
    StepSum(state, rules, order);
    SumOrderTotal(state, order);
  }

  lemma AddAgrees(m: map<Pair, nat>, products: (Pair, Pair), count: nat)
    requires products.0 != products.1
    ensures AddAsWritten(m, products, count) == Add(m, products, count)
  {
  }

  /** Without a rule whose products coincide, `step` as written is the intended step. */
  lemma {:induction false} AsWrittenAgrees(state: map<Pair, nat>, rules: map<Pair, (Pair, Pair)>, order: seq<Pair>)
    requires Ruled(state, rules, order)
    requires forall i :: 0 <= i < |order| ==> rules[order[i]].0 != rules[order[i]].1
    ensures StepCountsAsWritten(state, rules, order) == StepCounts(state, rules, order)
  {
    if order != [] {
      var init := order[..|order| - 1];
      var p := order[|order| - 1];
      assert Ruled(state, rules, init);
      AsWrittenAgrees(state, rules, init);
      AddAgrees(StepCounts(state, rules, init), rules[p], state[p]);
    }
  }

  // ---------------------------------------------------------------------------
  // A step does not depend on the iteration order.

  /** How many of the two products are the pair `k`. */
  function Hits(products: (Pair, Pair), k: Pair): nat {
    (if products.0 == k then 1 else 0) + (if products.1 == k then 1 else 0)
  }

  /** What each pair of `state` contributes to the count of `k` one step later. */
  function Contributions(state: map<Pair, nat>, rules: map<Pair, (Pair, Pair)>, k: Pair): map<Pair, nat> {
    map p | p in state :: state[p] * (if p in rules then Hits(rules[p], k) else 0)
  }

  lemma {:induction false} AddGet(m: map<Pair, nat>, products: (Pair, Pair), count: nat, k: Pair)
    ensures Get(Add(m, products, count), k) == Get(m, k) + count * Hits(products, k)
  {
  }

  /** The count of `k` after a step adds up the contributions of the pairs folded so far. */
  lemma {:induction false} StepCountsGet(state: map<Pair, nat>, rules: map<Pair, (Pair, Pair)>, order: seq<Pair>, k: Pair)
    requires Ruled(state, rules, order)
    ensures Get(StepCounts(state, rules, order), k) == SumOrder(Contributions(state, rules, k), order)
  {
    if order != [] {
      var init := order[..|order| - 1];
      var p := order[|order| - 1];
      assert Ruled(state, rules, init);
      StepCountsGet(state, rules, init, k);
      AddGet(StepCounts(state, rules, init), rules[p], state[p], k);
    }
  }

  /** Every listed count is positive: a pair that does not occur is not listed. */
  predicate Positive<K>(m: map<K, nat>) {
    forall k :: k in m ==> m[k] > 0
  }

  /** Every listed pair has a rule and is not empty. */
  predicate Keyed(state: map<Pair, nat>, rules: map<Pair, (Pair, Pair)>) {
    forall k :: k in state ==> k in rules && |k| >= 1
  }

  lemma {:induction false} StepPositive(state: map<Pair, nat>, rules: map<Pair, (Pair, Pair)>, order: seq<Pair>)
    requires Ruled(state, rules, order) && Positive(state)
    ensures Positive(StepCounts(state, rules, order))
  {
    if order != [] {
      var init := order[..|order| - 1];
      assert Ruled(state, rules, init);
      StepPositive(state, rules, init);
    }
  }

  /** Two maps without zero entries are equal when they give every key the same count. */
  lemma {:induction false} SameCounts<K>(a: map<K, nat>, b: map<K, nat>)
    requires Positive(a) && Positive(b)
    requires forall k :: Get(a, k) == Get(b, k)
    ensures a == b
  {
    forall k | k in a ensures k in b && a[k] == b[k] {
      assert Get(a, k) == Get(b, k);
    }
    forall k | k in b ensures k in a {
      assert Get(a, k) == Get(b, k);
    }
    assert a.Keys == b.Keys;
  }

  /** The hash map's iteration order does not change the result of a step. */
  lemma {:induction false} StepOrderFree(state: map<Pair, nat>, rules: map<Pair, (Pair, Pair)>, o1: seq<Pair>, o2: seq<Pair>)
    requires Positive(state) && Keyed(state, rules)
    requires IsOrder(o1, state) && IsOrder(o2, state)
    ensures Ruled(state, rules, o1) && Ruled(state, rules, o2)
    ensures StepCounts(state, rules, o1) == StepCounts(state, rules, o2)
  {
    forall k ensures Get(StepCounts(state, rules, o1), k) == Get(StepCounts(state, rules, o2), k) {
      var c := Contributions(state, rules, k);
      StepCountsGet(state, rules, o1, k);
      StepCountsGet(state, rules, o2, k);
      SumOrderTotal(c, o1);
      SumOrderTotal(c, o2);
    }
    StepPositive(state, rules, o1);
    StepPositive(state, rules, o2);
    SameCounts(StepCounts(state, rules, o1), StepCounts(state, rules, o2));
  }

  /** Some iteration order of a map. */
  ghost function SomeOrder<K>(m: map<K, nat>): (order: seq<K>)
    ensures IsOrder(order, m)
    decreases |m.Keys|
  {
    if m == map[] then []
    else
      var k := PickKey(m);
      assert (m - {k}).Keys < m.Keys;
      var rest := SomeOrder(m - {k});
      assert forall x :: x in m ==> x == k || x in m - {k};
      rest + [k]
  }

  /** One step of the pair counts; by `StepOrderFree` any iteration order gives it. */
  ghost function Next(state: map<Pair, nat>, rules: map<Pair, (Pair, Pair)>): (r: map<Pair, nat>)
    requires Positive(state) && Keyed(state, rules) && ClosedRules(rules)
    ensures Positive(r) && Keyed(r, rules)
  {
    var order := SomeOrder(state);
    StepPositive(state, rules, order);
    StepKeys(state, rules, order);
    StepCounts(state, rules, order)
  }

  /** Every pair of the template has a rule, so every pair counted has one. */
  lemma PairCountsKeyed(t: string, rules: map<Pair, (Pair, Pair)>)
    requires forall i :: 0 <= i < |t| - 1 ==> PairAt(t, i) in rules
    ensures Keyed(PairCounts(t), rules)
  {
    forall k | k in PairCounts(t) ensures k in rules && |k| >= 1 {
      PairCountsKeys(t, k);
    }
  }

  /** The pair counts of the template after `n` steps. */
  ghost function Iterate(t: string, rules: map<Pair, (Pair, Pair)>, n: nat): (r: map<Pair, nat>)
    requires ClosedRules(rules)
    requires forall i :: 0 <= i < |t| - 1 ==> PairAt(t, i) in rules
    ensures Positive(r) && Keyed(r, rules)
  {
    if n == 0 then
      PairCountsKeyed(t, rules);
      PairCounts(t)
    else Next(Iterate(t, rules, n - 1), rules)
  }

  // ---------------------------------------------------------------------------
  // The pair counts follow the polymer.

  /** The products of `p` are those of a rule "XY -> Z": XZ and ZY. */
  predicate Inserts(p: Pair, products: (Pair, Pair)) {
    |p| == 2 && |products.0| == 2 && |products.1| == 2 &&
    products.0[0] == p[0] && products.0[1] == products.1[0] && products.1[1] == p[1]
  }

  /** Every rule inserts one element between the two of its pair. */
  predicate InsertionRules(rules: map<Pair, (Pair, Pair)>) {
    forall p :: p in rules ==> Inserts(p, rules[p])
  }

  /** Rule lines of the form "XY -> Z". */
  predicate ElementRules(lines: seq<(string, string)>) {
    forall i :: 0 <= i < |lines| ==> |lines[i].0| == 2 && |lines[i].1| == 1
  }

  /** Lines "XY -> Z" give rules that insert Z between X and Y. */
  lemma {:induction false} RulesFromInserts(lines: seq<(string, string)>)
    requires ElementRules(lines)
    ensures InsertionRules(RulesFrom(lines))
  {
    if lines != [] {
      var init := lines[..|lines| - 1];
      var last := lines[|lines| - 1];
      assert ElementRules(init);
      RulesFromInserts(init);
      ProductsOfPair(last.0[0], last.0[1], last.1[0]);
      assert last.0 == [last.0[0], last.0[1]] && last.1 == [last.1[0]];
    }
  }

  /** The polymer one insertion step later: the element of each pair's rule goes between the two. */
  function Grow(t: string, rules: map<Pair, (Pair, Pair)>): (r: string)
    requires InsertionRules(rules)
    requires forall i :: 0 <= i < |t| - 1 ==> PairAt(t, i) in rules
    ensures |t| >= 1 ==> |r| == 2 * |t| - 1 && r[|r| - 1] == t[|t| - 1]
  {
    if |t| < 2 then t
    else
      var init := t[..|t| - 1];
      assert forall i :: 0 <= i < |init| - 1 ==> PairAt(init, i) == PairAt(t, i);
      Grow(init, rules) + [rules[PairAt(t, |t| - 2)].0[1], t[|t| - 1]]
  }

  /** Under closed rules, every pair of the grown polymer has a rule again. */
  lemma {:induction false} GrowPairs(t: string, rules: map<Pair, (Pair, Pair)>)
    requires InsertionRules(rules) && ClosedRules(rules)
    requires forall i :: 0 <= i < |t| - 1 ==> PairAt(t, i) in rules
    ensures forall j :: 0 <= j < |Grow(t, rules)| - 1 ==> PairAt(Grow(t, rules), j) in rules
  {
    if |t| >= 2 {
      var init := t[..|t| - 1];
      assert forall i :: 0 <= i < |init| - 1 ==> PairAt(init, i) == PairAt(t, i);
      GrowPairs(init, rules);
      var p := PairAt(t, |t| - 2);
      var gi := Grow(init, rules);
      var g := Grow(t, rules);
      var z := rules[p].0[1];
      assert Inserts(p, rules[p]) && Closes(rules, p);
      assert g == gi + [z, t[|t| - 1]];
      assert |gi| >= 1 && gi[|gi| - 1] == t[|t| - 2];
      assert rules[p].0 == [t[|t| - 2], z] && rules[p].1 == [z, t[|t| - 1]];
      forall j | 0 <= j < |g| - 1 ensures PairAt(g, j) in rules {
        if j < |gi| - 1 {
          assert PairAt(g, j) == PairAt(gi, j);
          assert PairAt(gi, j) in rules;
        } else if j == |gi| - 1 {
          assert PairAt(g, j) == rules[p].0;
          assert rules[p].0 in rules;
        } else {
          assert PairAt(g, j) == rules[p].1;
          assert rules[p].1 in rules;
        }
      }
    }
  }

  /** The polymer after `n` insertion steps. */
  ghost function GrowN(t: string, rules: map<Pair, (Pair, Pair)>, n: nat): (r: string)
    requires InsertionRules(rules) && ClosedRules(rules) && |t| >= 1
    requires forall i :: 0 <= i < |t| - 1 ==> PairAt(t, i) in rules
    ensures |r| >= 1 && r[|r| - 1] == t[|t| - 1]
    ensures forall i :: 0 <= i < |r| - 1 ==> PairAt(r, i) in rules
  {
    if n == 0 then t
    else
      var prev := GrowN(t, rules, n - 1);
      GrowPairs(prev, rules);
      Grow(prev, rules)
  }

  /** Two more elements add the two pairs they make. */
  lemma {:induction false} PairCountsAppend(s: string, a: char, b: char)
    requires |s| >= 1
    ensures var m := PairCounts(s);
      var m1 := m[[s[|s| - 1], a] := Get(m, [s[|s| - 1], a]) + 1];
      PairCounts(s + [a, b]) == m1[[a, b] := Get(m1, [a, b]) + 1]
  {
    var s1 := s + [a];
    var s2 := s1 + [b];
    assert s2 == s + [a, b];
    assert s2[..|s2| - 1] == s1 && PairAt(s2, |s2| - 2) == [a, b];
    var m1 := PairCounts(s1);
    assert PairCounts(s2) == m1[[a, b] := Get(m1, [a, b]) + 1];
    assert s1[..|s1| - 1] == s && PairAt(s1, |s1| - 2) == [s[|s| - 1], a];
    var m := PairCounts(s);
    assert m1 == m[[s[|s| - 1], a] := Get(m, [s[|s| - 1], a]) + 1];
  }

  lemma {:induction false} ContributionsGet(m: map<Pair, nat>, rules: map<Pair, (Pair, Pair)>, k: Pair, p: Pair)
    ensures Get(Contributions(m, rules, k), p) == Get(m, p) * (if p in rules then Hits(rules[p], k) else 0)
  {
  }

  lemma {:induction false} ContributionsUpdate(m: map<Pair, nat>, rules: map<Pair, (Pair, Pair)>, k: Pair, p: Pair, v: nat)
    ensures Contributions(m[p := v], rules, k) == Contributions(m, rules, k)[p := v * (if p in rules then Hits(rules[p], k) else 0)]
  {
  }

  /** The count of `k` in the grown polymer is the sum of the contributions of the pairs of the template. */
  lemma {:induction false} GrowCounts(t: string, rules: map<Pair, (Pair, Pair)>, k: Pair)
    requires InsertionRules(rules)
    requires forall i :: 0 <= i < |t| - 1 ==> PairAt(t, i) in rules
    ensures Get(PairCounts(Grow(t, rules)), k) == Total(Contributions(PairCounts(t), rules, k))
  {
    if |t| < 2 {
      GrowShort(t, rules, k);
    } else {
      var init := t[..|t| - 1];
      var p := PairAt(t, |t| - 2);
      GrowUnfold(t, init, rules);
      hide *;
      GrowCounts(init, rules, k);
      var gi := Grow(init, rules);
      PairCountsAppendGet(gi, rules[p].0[1], t[|t| - 1], k);
      ContributionsStep(PairCounts(init), rules, k, p);
      assert Get(PairCounts(Grow(t, rules)), k) == Total(Contributions(PairCounts(t), rules, k));
    }
  }

  lemma {:induction false} GrowShort(t: string, rules: map<Pair, (Pair, Pair)>, k: Pair)
    requires InsertionRules(rules) && |t| < 2
    ensures Get(PairCounts(Grow(t, rules)), k) == Total(Contributions(PairCounts(t), rules, k))
  {
    assert Contributions(map[], rules, k) == map[];
  }

  /** The last step of growing and counting: the last pair of the template becomes two pairs. */
  lemma {:induction false} GrowUnfold(t: string, init: string, rules: map<Pair, (Pair, Pair)>)
    requires InsertionRules(rules) && |t| >= 2 && init == t[..|t| - 1]
    requires forall i :: 0 <= i < |t| - 1 ==> PairAt(t, i) in rules
    ensures forall i :: 0 <= i < |init| - 1 ==> PairAt(init, i) in rules
    ensures var p := PairAt(t, |t| - 2);
      var gi := Grow(init, rules);
      p in rules && |rules[p].0| == 2 && |gi| >= 1 &&
      Grow(t, rules) == gi + [rules[p].0[1], t[|t| - 1]] &&
      rules[p] == ([gi[|gi| - 1], rules[p].0[1]], [rules[p].0[1], t[|t| - 1]]) &&
      PairCounts(t) == PairCounts(init)[p := Get(PairCounts(init), p) + 1]
  {
    assert forall i :: 0 <= i < |init| - 1 ==> PairAt(init, i) == PairAt(t, i);
    var p := PairAt(t, |t| - 2);
    assert Inserts(p, rules[p]);
    var gi := Grow(init, rules);
    var z := rules[p].0[1];
    assert rules[p].0 == [gi[|gi| - 1], z] && rules[p].1 == [z, t[|t| - 1]];
  }

  /** One more occurrence of a ruled pair adds its contribution to `k` once more. */
  lemma {:induction false} ContributionsStep(m: map<Pair, nat>, rules: map<Pair, (Pair, Pair)>, k: Pair, p: Pair)
    requires p in rules
    ensures Total(Contributions(m[p := Get(m, p) + 1], rules, k)) == Total(Contributions(m, rules, k)) + Hits(rules[p], k)
  {
    hide Total;
    var h := Hits(rules[p], k);
    var g := Get(m, p);
    var c := Contributions(m, rules, k);
    ContributionsGet(m, rules, k, p);
    ContributionsUpdate(m, rules, k, p, g + 1);
    TotalUpdate(c, p, (g + 1) * h);
    assert (g + 1) * h == g * h + h;
  }

  /** Two more elements add, for `k`, how many of the two pairs they make are `k`. */
  lemma {:induction false} PairCountsAppendGet(s: string, a: char, b: char, k: Pair)
    requires |s| >= 1
    ensures Get(PairCounts(s + [a, b]), k) == Get(PairCounts(s), k) + Hits(([s[|s| - 1], a], [a, b]), k)
  {
    PairCountsAppend(s, a, b);
    GetTwice(PairCounts(s), ([s[|s| - 1], a], [a, b]), k);
  }

  /** Counting each of two pairs once more adds, for `k`, how many of them are `k`. */
  lemma {:induction false} GetTwice(m: map<Pair, nat>, products: (Pair, Pair), k: Pair)
    ensures var m1 := m[products.0 := Get(m, products.0) + 1];
      Get(m1[products.1 := Get(m1, products.1) + 1], k) == Get(m, k) + Hits(products, k)
  {
  }

  /** A step of the pair counts gives the pair counts of the polymer one insertion step later. */
  lemma {:induction false} GrowStep(t: string, rules: map<Pair, (Pair, Pair)>, order: seq<Pair>)
    requires InsertionRules(rules)
    requires forall i :: 0 <= i < |t| - 1 ==> PairAt(t, i) in rules
    requires IsOrder(order, PairCounts(t))
    ensures Ruled(PairCounts(t), rules, order)
    ensures StepCounts(PairCounts(t), rules, order) == PairCounts(Grow(t, rules))
  {
    PairCountsKeyed(t, rules);
    var state := PairCounts(t);
    forall k ensures Get(StepCounts(state, rules, order), k) == Get(PairCounts(Grow(t, rules)), k) {
      StepCountsGet(state, rules, order, k);
      SumOrderTotal(Contributions(state, rules, k), order);
      GrowCounts(t, rules, k);
    }
    StepPositive(state, rules, order);
    SameCounts(StepCounts(state, rules, order), PairCounts(Grow(t, rules)));
  }

  /** The pair counts after `n` steps are those of the polymer after `n` insertion steps. */
  lemma {:induction false} IterateGrows(t: string, rules: map<Pair, (Pair, Pair)>, n: nat)
    requires InsertionRules(rules) && ClosedRules(rules) && |t| >= 1
    requires forall i :: 0 <= i < |t| - 1 ==> PairAt(t, i) in rules
    ensures Iterate(t, rules, n) == PairCounts(GrowN(t, rules, n))
  {
    hide *;
    IterateUnfold(t, rules, n);
    if n > 0 {
      IterateGrows(t, rules, n - 1);
      var prev := GrowN(t, rules, n - 1);
      var state := PairCounts(prev);
      NextUnfold(state, rules);
      GrowStep(prev, rules, SomeOrder(state));
    }
  }

  lemma {:induction false} IterateUnfold(t: string, rules: map<Pair, (Pair, Pair)>, n: nat)
    requires InsertionRules(rules) && ClosedRules(rules) && |t| >= 1
    requires forall i :: 0 <= i < |t| - 1 ==> PairAt(t, i) in rules
    ensures n == 0 ==> Iterate(t, rules, n) == PairCounts(GrowN(t, rules, n))
    ensures n > 0 ==> Iterate(t, rules, n) == Next(Iterate(t, rules, n - 1), rules)
    ensures n > 0 ==> GrowN(t, rules, n) == Grow(GrowN(t, rules, n - 1), rules)
  {
  }

  lemma {:induction false} NextUnfold(state: map<Pair, nat>, rules: map<Pair, (Pair, Pair)>)
    requires Positive(state) && Keyed(state, rules) && ClosedRules(rules)
    ensures Next(state, rules) == StepCounts(state, rules, SomeOrder(state))
  {
  }

  // ---------------------------------------------------------------------------
  // Element counts.

  /** What each pair of `state` adds to the count of the element `c`: its count when it starts with `c`. */
  function Firsts(state: map<Pair, nat>, c: char): map<Pair, nat> {
    map p | p in state :: if |p| >= 1 && p[0] == c then state[p] else 0
  }

  lemma {:induction false} FirstsUpdate(m: map<Pair, nat>, c: char, p: Pair, v: nat)
    ensures Firsts(m[p := v], c) == Firsts(m, c)[p := if |p| >= 1 && p[0] == c then v else 0]
  {
  }

  /** The pairs of a polymer that start with `c` are its occurrences of `c` but the last element. */
  lemma {:induction false} FirstsCount(s: string, c: char)
    requires |s| >= 1
    ensures Total(Firsts(PairCounts(s), c)) == multiset(s[..|s| - 1])[c]
  {
    if |s| < 2 {
      assert Firsts(map[], c) == map[];
      assert s[..|s| - 1] == [];
    } else {
      var init := s[..|s| - 1];
      FirstsCount(init, c);
      var m := PairCounts(init);
      var p := PairAt(s, |s| - 2);
      assert PairCounts(s) == m[p := Get(m, p) + 1];
      assert s[..|s| - 1] == init[..|init| - 1] + [s[|s| - 2]];
      hide Total, PairCounts;
      var v := if p[0] == c then Get(m, p) + 1 else 0;
      FirstsUpdate(m, c, p, Get(m, p) + 1);
      TotalUpdate(Firsts(m, c), p, v);
      assert Get(Firsts(m, c), p) == if p[0] == c then Get(m, p) else 0;
    }
  }

  /** The count of an element adds up, over the pairs folded so far, the counts of those starting with it. */
  lemma {:induction false} CharCountsGet(state: map<Pair, nat>, order: seq<Pair>, c: char)
    requires forall i :: 0 <= i < |order| ==> order[i] in state && |order[i]| >= 1
    ensures Get(CharCounts(state, order), c) == SumOrder(Firsts(state, c), order)
  {
    if order != [] {
      CharCountsGet(state, order[..|order| - 1], c);
    }
  }

  /**
   * Counting each pair of a polymer for its first element counts every
   * occurrence of an element but the last element of the polymer.
   */
  lemma {:induction false} CharCountsOccurrences(s: string, order: seq<Pair>, c: char)
    requires |s| >= 1 && IsOrder(order, PairCounts(s))
    ensures forall i :: 0 <= i < |order| ==> order[i] in PairCounts(s) && |order[i]| >= 1
    ensures Get(CharCounts(PairCounts(s), order), c) + (if c == s[|s| - 1] then 1 else 0) == multiset(s)[c]
  {
    var state := PairCounts(s);
    forall k | k in state ensures |k| >= 1 {
      PairCountsKeys(s, k);
    }
    CharCountsGet(state, order, c);
    SumOrderTotal(Firsts(state, c), order);
    FirstsCount(s, c);
    assert s == s[..|s| - 1] + [s[|s| - 1]];
  }

  lemma ExampleRules()
    ensures RulesFrom([("BA", "A"), ("AA", "A")]) == map["BA" := ("BA", "AA"), "AA" := ("AA", "AA")]
  {
    var lines := [("BA", "A"), ("AA", "A")];
    assert lines[..1] == [("BA", "A")] && lines[..1][..0] == [];
    assert "BA"[..1] == "B" && "BA"[1..] == "A" && "AA"[..1] == "A" && "AA"[1..] == "A";
    assert "B" + "A" == "BA" && "A" + "A" == "AA";
    assert Products("BA", "A") == ("BA", "AA") && Products("AA", "A") == ("AA", "AA");
    assert RulesFrom(lines[..1]) == map["BA" := ("BA", "AA")];
  }

  lemma ExampleGrow()
    ensures Grow("BAA", map["BA" := ("BA", "AA"), "AA" := ("AA", "AA")]) == "BAAAA"
  {
    assert "BAA"[..2] == "BA" && "BA"[..1] == "B";
  }

  lemma ExampleCounts()
    ensures PairCounts("BAA") == map["BA" := 1, "AA" := 1]
    ensures PairCounts("BAAAA") == map["BA" := 1, "AA" := 3]
  {
    assert "BAAAA"[..4] == "BAAA" && "BAAA"[..3] == "BAA" && "BAA"[..2] == "BA";
  }

  lemma ExampleStep(state: map<Pair, nat>, rules: map<Pair, (Pair, Pair)>)
    requires state == map["BA" := 1, "AA" := 1] && rules == map["BA" := ("BA", "AA"), "AA" := ("AA", "AA")]
    ensures Ruled(state, rules, ["BA", "AA"]) && IsOrder(["BA", "AA"], state)
    ensures StepCounts(state, rules, ["BA", "AA"]) == map["BA" := 1, "AA" := 3]
  {
    var order := ["BA", "AA"];
    assert order[..1] == ["BA"] && order[..1][..0] == [];
    assert Ruled(state, rules, []) && StepCounts(state, rules, []) == map[];
    var m := StepCounts(state, rules, ["BA"]);
    assert m == Add(map[], ("BA", "AA"), 1);
    AddDistinct(map[], ("BA", "AA"), 1);
    assert m == map["BA" := 1, "AA" := 1];
    assert StepCounts(state, rules, order) == m["AA" := m["AA"] + 2];
  }

  lemma ExampleStepAsWritten(state: map<Pair, nat>, rules: map<Pair, (Pair, Pair)>)
    requires state == map["BA" := 1, "AA" := 1] && rules == map["BA" := ("BA", "AA"), "AA" := ("AA", "AA")]
    ensures Ruled(state, rules, ["BA", "AA"])
    ensures StepCountsAsWritten(state, rules, ["BA", "AA"]) == map["BA" := 1, "AA" := 4]
  {
    var order := ["BA", "AA"];
    assert order[..1] == ["BA"] && order[..1][..0] == [];
    var m := StepCountsAsWritten(state, rules, ["BA"]);
    assert ["BA"][..0] == [] && StepCountsAsWritten(state, rules, []) == map[];
    assert m == AddAsWritten(map[], ("BA", "AA"), 1);
    assert m == map["BA" := 1, "AA" := 1];
    assert StepCountsAsWritten(state, rules, order) == m["AA" := 2 * (m["AA"] + 1)];
  }

  /**
   * "BAA" with the rules "BA -> A" and "AA -> A" grows to "BAAAA", which has
   * one BA and three AA. When the hash map yields BA before AA, `step` as
   * written first gives AA the count 1 (from BA) and then doubles it together
   * with AA's own count, to 4: five pairs where there are four.
   */
  lemma AsWrittenOvercounts()
    ensures var rules := RulesFrom([("BA", "A"), ("AA", "A")]);
      var state := PairCounts("BAA");
      Ruled(state, rules, ["BA", "AA"]) && IsOrder(["BA", "AA"], state) &&
      Grow("BAA", map["BA" := ("BA", "AA"), "AA" := ("AA", "AA")]) == "BAAAA" &&
      StepCounts(state, rules, ["BA", "AA"]) == PairCounts("BAAAA") &&
      StepCountsAsWritten(state, rules, ["BA", "AA"]) == map["BA" := 1, "AA" := 4]
  {
    ExampleRules();
    ExampleGrow();
    ExampleCounts();
    ExampleStep(PairCounts("BAA"), RulesFrom([("BA", "A"), ("AA", "A")]));
    ExampleStepAsWritten(PairCounts("BAA"), RulesFrom([("BA", "A"), ("AA", "A")]));
  }

  // ---------------------------------------------------------------------------
  // The polymer.

  class Polymer {
    var state: map<Pair, nat>
    var rules: map<Pair, (Pair, Pair)>

    /**
     * `Polymer::new`: count the template's adjacent pairs one by one and
     * build the rule map; `len() - 1` needs a non-empty template.
     */
    constructor (template: string, ruleLines: seq<(string, string)>)
      requires |template| >= 1
      requires forall i :: 0 <= i < |ruleLines| ==> |ruleLines[i].0| >= 1
      ensures state == PairCounts(template) && rules == RulesFrom(ruleLines)
    {
      var counts: map<Pair, nat> := map[];
      for i := 0 to |template| - 1
        invariant counts == PairCounts(template[..i + 1])
      {
        assert template[..i + 2][..i + 1] == template[..i + 1];
        var pair := PairAt(template, i);
        var count := Get(counts, pair);
        counts := counts[pair := count + 1];
      }
      assert template[..|template|] == template;
      state := counts;
      rules := RulesFrom(ruleLines);
    }

    /**
     * `step`: the pairs, taken in the hash map's order (`order`), are folded
     * into a fresh map, each adding its count to both products of its rule.
     */
    method Step() returns (ghost order: seq<Pair>)
      requires forall k :: k in state ==> k in rules
      modifies this
      ensures IsOrder(order, old(state)) && Ruled(old(state), rules, order)
      ensures state == StepCounts(old(state), rules, order) && rules == old(rules)
    {
      var pairs := state;
      var newState: map<Pair, nat> := map[];
      var remaining := pairs.Keys;
      order := [];
      while remaining != {}
        invariant remaining <= pairs.Keys && unchanged(this)
        invariant forall k :: k in pairs ==> k in remaining || k in order
        invariant forall i :: 0 <= i < |order| ==> order[i] in pairs && order[i] !in remaining
        invariant forall i, j :: 0 <= i < j < |order| ==> order[i] != order[j]
        invariant Ruled(pairs, rules, order) && newState == StepCounts(pairs, rules, order)
        decreases |remaining|
      {
        var pair :| pair in remaining;
        var (rule1, rule2) := rules[pair];
        var count := pairs[pair];
        assert rules[pair] == (rule1, rule2);
        newState := Accumulate(newState, rule1, rule2, count);
        StepCountsSnoc(pairs, rules, order, pair);
        OrderSnoc(order, pairs, remaining, pair);
        order := order + [pair];
        remaining := remaining - {pair};
      }
      state := newState;
    }
  }

  // ---------------------------------------------------------------------------
  // Counting elements.

  /** The element counts folded from the pairs in `order`: each pair counts for its first element. */
  function CharCounts(state: map<Pair, nat>, order: seq<Pair>): (r: map<char, nat>)
    requires forall i :: 0 <= i < |order| ==> order[i] in state && |order[i]| >= 1
    ensures Total(r) == SumOrder(state, order)
  {
    if order == [] then map[]
    else
      var p := order[|order| - 1];
      var m := CharCounts(state, order[..|order| - 1]);
      TotalUpdate(m, p[0], Get(m, p[0]) + state[p]);
      m[p[0] := Get(m, p[0]) + state[p]]
  }

  /** Fold the pairs into per-element counts, in the hash map's order. */
  method CountChars(state: map<Pair, nat>) returns (counts: map<char, nat>, ghost order: seq<Pair>)
    requires forall k :: k in state ==> |k| >= 1
    ensures IsOrder(order, state) && counts == CharCounts(state, order)
  {
    counts := map[];
    var remaining := state.Keys;
    order := [];
    while remaining != {}
      invariant remaining <= state.Keys
      invariant forall k :: k in state ==> k in remaining || k in order
      invariant forall i :: 0 <= i < |order| ==> order[i] in state && order[i] !in remaining
      invariant forall i, j :: 0 <= i < j < |order| ==> order[i] != order[j]
      invariant counts == CharCounts(state, order)
      decreases |remaining|
    {
      var pair :| pair in remaining;
      counts := CountPair(state, order, counts, pair);
      OrderSnoc(order, state, remaining, pair);
      order := order + [pair];
      remaining := remaining - {pair};
    }
  }

  /** One step of the fold: the pair's count goes to its first element. */
  method CountPair(state: map<Pair, nat>, ghost order: seq<Pair>, counts: map<char, nat>, pair: Pair)
    returns (counts': map<char, nat>)
    requires forall i :: 0 <= i < |order| ==> order[i] in state && |order[i]| >= 1
    requires pair in state && |pair| >= 1 && counts == CharCounts(state, order)
    ensures forall i :: 0 <= i < |order + [pair]| ==> (order + [pair])[i] in state && |(order + [pair])[i]| >= 1
    ensures counts' == CharCounts(state, order + [pair])
  {
    var c := pair[0];
    counts' := counts[c := Get(counts, c) + state[pair]];
    CharCountsSnoc(state, order, pair);
  }

  lemma CharCountsSnoc(state: map<Pair, nat>, order: seq<Pair>, p: Pair)
    requires forall i :: 0 <= i < |order| ==> order[i] in state && |order[i]| >= 1
    requires p in state && |p| >= 1
    ensures forall i :: 0 <= i < |order + [p]| ==> (order + [p])[i] in state && |(order + [p])[i]| >= 1
    ensures var m := CharCounts(state, order); CharCounts(state, order + [p]) == m[p[0] := Get(m, p[0]) + state[p]]
  {
    assert (order + [p])[..|order|] == order;
  }

  function Count(e: (char, nat)): int {
    e.1
  }

  /** The entries of a map, in its iteration order. */
  method Entries(counts: map<char, nat>) returns (entries: seq<(char, nat)>)
    ensures forall i :: 0 <= i < |entries| ==> entries[i].0 in counts && entries[i].1 == counts[entries[i].0]
    ensures forall c :: c in counts ==> (c, counts[c]) in entries
  {
    entries := [];
    var remaining := counts.Keys;
    while remaining != {}
      invariant remaining <= counts.Keys
      invariant forall i :: 0 <= i < |entries| ==> entries[i].0 in counts && entries[i].1 == counts[entries[i].0]
      invariant forall c :: c in counts ==> c in remaining || (c, counts[c]) in entries
      decreases |remaining|
    {
      var c :| c in remaining;
      entries := entries + [(c, counts[c])];
      remaining := remaining - {c};
    }
  }

  /**
   * The first and the last entry once the entries are sorted by count: a
   * least and a most common element.
   */
  method Extremes(counts: map<char, nat>) returns (least: char, leastCount: nat, most: char, mostCount: nat)
    requires counts != map[]
    ensures least in counts && most in counts && leastCount == counts[least] && mostCount == counts[most]
    ensures forall c :: c in counts ==> leastCount <= counts[c] <= mostCount
  {
    var entries := Entries(counts);
    var sorted := SortBy(entries, Count);
    assert |sorted| > 0 by {
      var c :| c in counts;
      assert (c, counts[c]) in multiset(sorted);
    }
    assert sorted[0] in multiset(entries) && sorted[|sorted| - 1] in multiset(entries);
    least, leastCount := sorted[0].0, sorted[0].1;
    most, mostCount := sorted[|sorted| - 1].0, sorted[|sorted| - 1].1;
    forall c | c in counts ensures leastCount <= counts[c] <= mostCount {
      assert (c, counts[c]) in multiset(sorted);
      var j :| 0 <= j < |sorted| && sorted[j] == (c, counts[c]);
      assert Count(sorted[0]) <= Count(sorted[j]) <= Count(sorted[|sorted| - 1]);
    }
  }

  function Pow2(n: nat): (r: nat)
    ensures r >= 1
  {
    if n == 0 then 1 else 2 * Pow2(n - 1)
  }

  /** `n` doubled `i` times. */
  function Doubled(n: nat, i: nat): nat {
    if i == 0 then n else 2 * Doubled(n, i - 1)
  }

  lemma {:induction false} DoubledIsPower(n: nat, i: nat)
    ensures Doubled(n, i) == n * Pow2(i)
    ensures n > 0 ==> Doubled(n, i) > 0
  {
    if i > 0 {
      DoubledIsPower(n, i - 1);
      assert n * Pow2(i) == 2 * (n * Pow2(i - 1));
    }
  }

  /** After a step under closed rules, every pair present has a rule again. */
  lemma {:induction false} StepKeys(state: map<Pair, nat>, rules: map<Pair, (Pair, Pair)>, order: seq<Pair>)
    requires Ruled(state, rules, order) && ClosedRules(rules)
    ensures forall k :: k in StepCounts(state, rules, order) ==> k in rules && |k| >= 1
  {
    if order != [] {
      var init := order[..|order| - 1];
      var p := order[|order| - 1];
      assert Ruled(state, rules, init);
      StepKeys(state, rules, init);
      assert p in rules && Closes(rules, p);
      var m := StepCounts(state, rules, init);
      assert StepCounts(state, rules, order) == Add(m, rules[p], state[p]);
      AddKeys(m, rules[p], state[p]);
    }
  }

  /** Every product of a rule has a rule of its own, so every step finds its rules. */
  predicate ClosedRules(rules: map<Pair, (Pair, Pair)>) {
    forall k {:trigger Closes(rules, k)} :: k in rules ==> Closes(rules, k)
  }

  /** The products of the rule for `k` have rules of their own. */
  predicate Closes(rules: map<Pair, (Pair, Pair)>, k: Pair)
    requires k in rules
  {
    rules[k].0 in rules && rules[k].1 in rules && |rules[k].0| >= 1 && |rules[k].1| >= 1
  }

  /** `counts` are the element counts folded, in the order `order`, from the pair counts after `n` steps. */
  ghost predicate CountedFrom(t: string, rules: map<Pair, (Pair, Pair)>, n: nat, counts: map<char, nat>, order: seq<Pair>)
    requires ClosedRules(rules)
    requires forall i :: 0 <= i < |t| - 1 ==> PairAt(t, i) in rules
  {
    IsOrder(order, Iterate(t, rules, n)) && counts == CharCounts(Iterate(t, rules, n), order)
  }

  /**
   * `counts` gives every element its number of occurrences in the polymer
   * grown `n` times, but one less to the template's last element, and
   * `result` is the number of occurrences of `most` less that of `least`.
   */
  ghost predicate Describes(t: string, rules: map<Pair, (Pair, Pair)>, n: nat, counts: map<char, nat>, least: char, most: char, result: int)
    requires InsertionRules(rules) && ClosedRules(rules) && |t| >= 1
    requires forall i :: 0 <= i < |t| - 1 ==> PairAt(t, i) in rules
  {
    var polymer := GrowN(t, rules, n);
    (forall c :: Get(counts, c) + (if c == t[|t| - 1] then 1 else 0) == multiset(polymer)[c]) &&
    result == multiset(polymer)[most] as int - multiset(polymer)[least] as int
  }

  /** Under insertion rules the element counts describe the grown polymer. */
  lemma GrownCounts(t: string, rules: map<Pair, (Pair, Pair)>, n: nat, counts: map<char, nat>, order: seq<Pair>,
                    least: char, most: char, result: int)
    requires InsertionRules(rules) && ClosedRules(rules) && |t| >= 1
    requires forall i :: 0 <= i < |t| - 1 ==> PairAt(t, i) in rules
    requires CountedFrom(t, rules, n, counts, order)
    requires least in counts && most in counts
    requires result == (counts[most] as int + if most == t[|t| - 1] then 1 else 0)
                     - (counts[least] + if least == t[|t| - 1] then 1 else 0)
    ensures Describes(t, rules, n, counts, least, most, result)
  {
    var polymer := GrowN(t, rules, n);
    IterateGrows(t, rules, n);
    forall c ensures Get(counts, c) + (if c == t[|t| - 1] then 1 else 0) == multiset(polymer)[c] {
      CharCountsOccurrences(polymer, order, c);
    }
    assert Get(counts, most) == counts[most] && Get(counts, least) == counts[least];
  }

  /**
   * `solve`: `steps` steps, then the element counts sorted by count; the
   * answer is the largest count less the smallest, each raised by one when
   * its element is the last of the template (the one element no pair starts
   * with). The pair counts are those `Iterate` gives, the element counts are
   * folded from them in the hash map's order, and there are (n - 1)·2^steps
   * pairs. When every rule inserts one element, the element counts (plus the
   * last element) are the occurrences in the polymer grown `steps` times, and
   * the answer is the difference of the occurrences of the chosen elements.
   */
  method Solve(template: string, ruleLines: seq<(string, string)>, steps: nat)
    returns (result: int, ghost counts: map<char, nat>, ghost least: char, ghost most: char, ghost order: seq<Pair>)
    requires |template| >= 2
    requires forall i :: 0 <= i < |ruleLines| ==> |ruleLines[i].0| >= 1
    requires ClosedRules(RulesFrom(ruleLines))
    requires forall i :: 0 <= i < |template| - 1 ==> PairAt(template, i) in RulesFrom(ruleLines)
    ensures CountedFrom(template, RulesFrom(ruleLines), steps, counts, order)
    ensures Total(counts) == (|template| - 1) * Pow2(steps)
    ensures least in counts && most in counts
    ensures forall c :: c in counts ==> counts[least] <= counts[c] <= counts[most]
    ensures result == (counts[most] as int + if most == template[|template| - 1] then 1 else 0)
                    - (counts[least] + if least == template[|template| - 1] then 1 else 0)
    ensures InsertionRules(RulesFrom(ruleLines)) ==> Describes(template, RulesFrom(ruleLines), steps, counts, least, most, result)
  {
    var polymer := new Polymer(template, ruleLines);
    PairCountsTotal(template);
    PairCountsKeyed(template, polymer.rules);
    for i := 0 to steps
      invariant polymer.rules == RulesFrom(ruleLines)
      invariant polymer.state == Iterate(template, polymer.rules, i)
      invariant Total(polymer.state) == Doubled(|template| - 1, i)
    {
      ghost var before := polymer.state;
      ghost var stepOrder := polymer.Step();
      StepDoubles(before, polymer.rules, stepOrder);
      StepOrderFree(before, polymer.rules, stepOrder, SomeOrder(before));
      NextUnfold(before, polymer.rules);
    }
    DoubledIsPower(|template| - 1, steps);
    result, counts, least, most, order := Score(polymer.state, template[|template| - 1]);
    ScoreOfGrown(template, polymer.rules, steps, polymer.state, counts, order, least, most, result);
  }

  /** What the score of the pair counts after `n` steps says about the polymer grown `n` times. */
  lemma ScoreOfGrown(t: string, rules: map<Pair, (Pair, Pair)>, n: nat, state: map<Pair, nat>, counts: map<char, nat>,
                     order: seq<Pair>, least: char, most: char, result: int)
    requires |t| >= 2 && ClosedRules(rules)
    requires forall i :: 0 <= i < |t| - 1 ==> PairAt(t, i) in rules
    requires state == Iterate(t, rules, n)
    requires IsOrder(order, state) && counts == CharCounts(state, order)
    requires least in counts && most in counts
    requires result == (counts[most] as int + if most == t[|t| - 1] then 1 else 0)
                     - (counts[least] + if least == t[|t| - 1] then 1 else 0)
    ensures CountedFrom(t, rules, n, counts, order)
    ensures InsertionRules(rules) ==> Describes(t, rules, n, counts, least, most, result)
  {
    if InsertionRules(rules) {
      GrownCounts(t, rules, n, counts, order, least, most, result);
    }
  }

  /**
   * The end of `solve`: count the characters over the pair counts, take the
   * least and most common, and add one to whichever is the template's last
   * character, which no pair's first letter counts.
   */
  method Score(state: map<Pair, nat>, lastChar: char)
    returns (result: int, ghost counts: map<char, nat>, ghost least: char, ghost most: char, ghost order: seq<Pair>)
    requires forall k :: k in state ==> |k| >= 1
    requires Total(state) > 0
    ensures IsOrder(order, state) && counts == CharCounts(state, order)
    ensures Total(counts) == Total(state)
    ensures least in counts && most in counts
    ensures forall c :: c in counts ==> counts[least] <= counts[c] <= counts[most]
    ensures result == (counts[most] as int + if most == lastChar then 1 else 0)
                    - (counts[least] + if least == lastChar then 1 else 0)
    ensures result >= -1
    ensures result < 0 <==> counts[least] == counts[most] && least == lastChar && most != lastChar
  {
    var charCounts;
    charCounts, order := CountChars(state);
    counts := charCounts;
    SumOrderTotal(state, order);
    TotalEmpty(counts);
    var leastChar, leastCount, mostChar, mostCount := Extremes(charCounts);
    least, most := leastChar, mostChar;
    if leastChar == lastChar {
      leastCount := leastCount + 1;
    }
    if mostChar == lastChar {
      mostCount := mostCount + 1;
    }
    result := mostCount as int - leastCount as int;
  }

  /** `solution_a`: ten steps. */
  method SolutionA(template: string, ruleLines: seq<(string, string)>)
    returns (result: int, ghost counts: map<char, nat>, ghost least: char, ghost most: char, ghost order: seq<Pair>)
    requires |template| >= 2
    requires forall i :: 0 <= i < |ruleLines| ==> |ruleLines[i].0| >= 1
    requires ClosedRules(RulesFrom(ruleLines))
    requires forall i :: 0 <= i < |template| - 1 ==> PairAt(template, i) in RulesFrom(ruleLines)
    ensures CountedFrom(template, RulesFrom(ruleLines), 10, counts, order)
    ensures Total(counts) == (|template| - 1) * Pow2(10)
    ensures least in counts && most in counts
    ensures forall c :: c in counts ==> counts[least] <= counts[c] <= counts[most]
    ensures result == (counts[most] as int + if most == template[|template| - 1] then 1 else 0)
                    - (counts[least] + if least == template[|template| - 1] then 1 else 0)
    ensures result < 0 <==> counts[least] == counts[most] && least == template[|template| - 1] && most != template[|template| - 1]
    ensures InsertionRules(RulesFrom(ruleLines)) ==> Describes(template, RulesFrom(ruleLines), 10, counts, least, most, result)
  {
    result, counts, least, most, order := Solve(template, ruleLines, 10);
  }

  /** `solution_b`: forty steps. */
  method SolutionB(template: string, ruleLines: seq<(string, string)>)
    returns (result: int, ghost counts: map<char, nat>, ghost least: char, ghost most: char, ghost order: seq<Pair>)
    requires |template| >= 2
    requires forall i :: 0 <= i < |ruleLines| ==> |ruleLines[i].0| >= 1
    requires ClosedRules(RulesFrom(ruleLines))
    requires forall i :: 0 <= i < |template| - 1 ==> PairAt(template, i) in RulesFrom(ruleLines)
    ensures CountedFrom(template, RulesFrom(ruleLines), 40, counts, order)
    ensures Total(counts) == (|template| - 1) * Pow2(40)
    ensures least in counts && most in counts
    ensures forall c :: c in counts ==> counts[least] <= counts[c] <= counts[most]
    ensures result == (counts[most] as int + if most == template[|template| - 1] then 1 else 0)
                    - (counts[least] + if least == template[|template| - 1] then 1 else 0)
    ensures result < 0 <==> counts[least] == counts[most] && least == template[|template| - 1] && most != template[|template| - 1]
    ensures InsertionRules(RulesFrom(ruleLines)) ==> Describes(template, RulesFrom(ruleLines), 40, counts, least, most, result)
  {
    result, counts, least, most, order := Solve(template, ruleLines, 40);
  }
}
