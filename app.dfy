/** `getScore`: the total of a dictionary from user name to score. */
module App {

  /** Sum of all the values of `m`, taken out one key at a time. Which key is
      taken first does not matter (SumValuesRemove). */
  ghost function SumValues(m: map<string, int>): int
    decreases |m|
  {
    if m == map[] then 0
    else
      var k :| k in m;
      m[k] + SumValues(m - {k})
  }

  /** Any key may be taken out first. */
  lemma {:induction false} SumValuesRemove(m: map<string, int>, k: string)
    requires k in m
    ensures SumValues(m) == m[k] + SumValues(m - {k})
    decreases |m|
  {
    var j :| j in m && SumValues(m) == m[j] + SumValues(m - {j});
    if j != k {
      assert m - {j} - {k} == m - {k} - {j};
      SumValuesRemove(m - {j}, k);
      SumValuesRemove(m - {k}, j);
    }
  }

  /** Adding a user who is not yet in the dictionary adds their score. */
  lemma SumValuesAddFresh(m: map<string, int>, user: string, score: int)
    requires user !in m
    ensures SumValues(m[user := score]) == SumValues(m) + score
  {
    SumValuesRemove(m[user := score], user);
    assert m[user := score] - {user} == m;
  }

  /** With non-negative scores the total bounds every single score. */
  lemma {:induction false} SumValuesBounds(m: map<string, int>, user: string)
    requires forall u :: u in m ==> m[u] >= 0
    requires user in m
    ensures m[user] <= SumValues(m)
    decreases |m|
  {
    SumValuesRemove(m, user);
    SumValuesNonNegative(m - {user});
  }

  /** With non-negative scores the total is non-negative. */
  lemma {:induction false} SumValuesNonNegative(m: map<string, int>)
    requires forall u :: u in m ==> m[u] >= 0
    ensures SumValues(m) >= 0
    decreases |m|
  {
    if m != map[] {
      var k :| k in m;
      SumValuesRemove(m, k);
      SumValuesNonNegative(m - {k});
    }
  }

  /** `Object.values(scores)` when the keys are enumerated in the order `keys`. */
  function ValuesInOrder(m: map<string, int>, keys: seq<string>): (vs: seq<int>)
    requires forall i :: 0 <= i < |keys| ==> keys[i] in m
    ensures |vs| == |keys|
    ensures forall i :: 0 <= i < |keys| ==> vs[i] == m[keys[i]]
  {
    if keys == [] then [] else [m[keys[0]]] + ValuesInOrder(m, keys[1..])
  }

  /** `values.reduce((a, b) => a + b, acc)`: a left fold with `+`. */
  function Reduce(values: seq<int>, acc: int): int
  {
    if values == [] then acc else Reduce(values[1..], acc + values[0])
  }

  /** The accumulator of a left fold with `+` can be pulled out. */
  lemma {:induction false} ReduceShift(values: seq<int>, acc: int)
    ensures Reduce(values, acc) == acc + Reduce(values, 0)
  {
    if values != [] {
      ReduceShift(values[1..], acc + values[0]);
      ReduceShift(values[1..], values[0]);
    }
  }

  /** Keys listed once each, all of them. */
  predicate Enumerates(m: map<string, int>, keys: seq<string>) {
    && (forall i :: 0 <= i < |keys| ==> keys[i] in m)
    && (forall u :: u in m ==> u in keys)
    && (forall i, j :: 0 <= i < j < |keys| ==> keys[i] != keys[j])
  }

  /** The `reduce` formulation equals the total, whatever the order in which
      the keys are enumerated. */
  lemma {:induction false} ReduceEqualsSumValues(m: map<string, int>, keys: seq<string>)
    requires Enumerates(m, keys)
    ensures Reduce(ValuesInOrder(m, keys), 0) == SumValues(m)
    decreases |keys|
  {
    if keys == [] {
      assert m == map[];
    } else {
      var k := keys[0];
      var rest := m - {k};
      assert Enumerates(rest, keys[1..]) by {
        forall u | u in rest ensures u in keys[1..] {
          var i :| 0 <= i < |keys| && keys[i] == u;
          assert i != 0;
        }
      }
      ReduceEqualsSumValues(rest, keys[1..]);
      assert ValuesInOrder(rest, keys[1..]) == ValuesInOrder(m, keys[1..]);
      var vs := ValuesInOrder(m, keys);
      assert vs[1..] == ValuesInOrder(m, keys[1..]);
      ReduceShift(vs[1..], m[k]);
      SumValuesRemove(m, k);
    }
  }

  /** `getScore(scores)`: adds up the scores in a `for ... in` loop over the
      users. The users are visited in an unspecified order. */
  method GetScore(scores: map<string, int>) returns (sum: int)
    ensures sum == SumValues(scores)
    ensures scores == map[] ==> sum == 0
  {
    sum := 0;
    var pending := scores.Keys;
    ghost var visited: map<string, int> := map[];
    while pending != {}
      invariant pending <= scores.Keys
      invariant visited == scores - pending
      invariant sum == SumValues(visited)
      decreases pending
    {
      var user :| user in pending;
      SumValuesAddFresh(visited, user, scores[user]);
      sum := sum + scores[user];
      visited := visited[user := scores[user]];
      pending := pending - {user};
    }
    assert visited == scores;
  }

  /** The worked example of the documentation comment. */
  lemma GetScoreExample()
    ensures SumValues(map["Anna" := 10, "Olga" := 1, "Ivan" := 5]) == 16
  {
    SumValuesAddFresh(map[], "Anna", 10);
    SumValuesAddFresh(map["Anna" := 10], "Olga", 1);
    SumValuesAddFresh(map["Anna" := 10, "Olga" := 1], "Ivan", 5);
  }
}
