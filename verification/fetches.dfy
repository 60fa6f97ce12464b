/** The per-asset fetch loops of the cleaner: one gateway call per group
    member, results kept in a map keyed by asset id. */
module Fetches {
  import opened Types

  /** Some fetch of `x` succeeded. */
  predicate Succeeded<K(==), V>(keys: seq<K>, answers: seq<Option<V>>, x: K)
    requires |answers| == |keys|
  {
    exists i | 0 <= i < |keys| :: keys[i] == x && answers[i].Some?
  }

  /** No fetch of `x` after position `i` succeeded. */
  predicate NoLaterSuccess<K(==), V>(keys: seq<K>, answers: seq<Option<V>>, x: K, i: int)
    requires |answers| == |keys|
  {
    forall j | 0 <= i < j < |keys| && keys[j] == x :: answers[j].None?
  }

  /** The last successful fetch of `x` answered `v`. */
  predicate LastAnswer<K(==), V(==)>(keys: seq<K>, answers: seq<Option<V>>, x: K, v: V)
    requires |answers| == |keys|
  {
    exists i | 0 <= i < |keys| :: keys[i] == x && answers[i] == Some(v) && NoLaterSuccess(keys, answers, x, i)
  }

  /** The keys whose fetch succeeded at least once. */
  function Fetched<K(==,!new), V>(keys: seq<K>, answers: seq<Option<V>>): set<K>
    requires |answers| == |keys|
  {
    set i | 0 <= i < |keys| && answers[i].Some? :: keys[i]
  }

  /** The map such a loop builds. A successful answer is stored under its
      key, so a later success for the same key overwrites an earlier one; a
      failed fetch is skipped and leaves no entry. */
  function Collect<K(==,!new), V(==)>(keys: seq<K>, answers: seq<Option<V>>): (m: map<K, V>)
    requires |answers| == |keys|
    ensures forall x :: x in m <==> Succeeded(keys, answers, x)
    ensures forall x | x in m :: LastAnswer(keys, answers, x, m[x])
    decreases |keys|
  {
    if |keys| == 0 then map[]
    else
      var n := |keys| - 1;
      var m := Collect(keys[..n], answers[..n]);
      assert forall i | 0 <= i < n :: keys[..n][i] == keys[i] && answers[..n][i] == answers[i];
      match answers[n]
      case None =>
        LastAnswerExtends(keys, answers, m);
        m
      case Some(v) =>
        LastAnswerExtends(keys, answers, m);
        assert NoLaterSuccess(keys, answers, keys[n], n);
        m[keys[n] := v]
  }

  /** A last answer in the prefix without the final fetch stays the last
      answer when the final fetch is for another key or failed. */
  lemma LastAnswerExtends<K, V>(keys: seq<K>, answers: seq<Option<V>>, m: map<K, V>)
    requires |answers| == |keys| > 0
    requires forall x | x in m :: LastAnswer(keys[..|keys| - 1], answers[..|keys| - 1], x, m[x])
    ensures forall x | x in m && (keys[|keys| - 1] != x || answers[|keys| - 1].None?) :: LastAnswer(keys, answers, x, m[x])
  {
    var n := |keys| - 1;
    forall x | x in m && (keys[n] != x || answers[n].None?)
      ensures LastAnswer(keys, answers, x, m[x])
    {
      var i :| 0 <= i < n && keys[..n][i] == x && answers[..n][i] == Some(m[x]) && NoLaterSuccess(keys[..n], answers[..n], x, i);
      forall j | 0 <= i < j < |keys| && keys[j] == x
        ensures answers[j].None?
      {
        if j < n {
          assert keys[..n][j] == keys[j];
        }
      }
    }
  }

  /** The map a fetch loop builds has exactly the successfully fetched keys. */
  lemma CollectedKeys<K(!new), V>(keys: seq<K>, answers: seq<Option<V>>)
    requires |answers| == |keys|
    ensures Collect(keys, answers).Keys == Fetched(keys, answers)
  {
    var m := Collect(keys, answers);
    forall x | x in m
      ensures x in Fetched(keys, answers)
    {
      var i :| 0 <= i < |keys| && keys[i] == x && answers[i].Some?;
    }
  }
}
