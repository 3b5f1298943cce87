/**
 A table that learns once: a key keeps the first value given to it until it is
 forgotten.  The P4 tables programmed by ovs-p4rt behave like this, because an INSERT
 of a present key fails and leaves the old entry.  The law of such a table is stated
 on the whole history, without running it: a key holds the value of the first Learn
 after its last Forget.
 */
module LearnOnce {

  datatype Op<K, V> = Learn(key: K, value: V) | Forget(key: K) | Skip

  function Apply<K, V>(t: map<K, V>, op: Op<K, V>): map<K, V> {
    match op
    case Learn(k, v) => if k in t then t else t[k := v]
    case Forget(k) => t - {k}
    case Skip => t
  }

  /** The table after a history, starting from the empty one. */
  function Run<K, V>(ops: seq<Op<K, V>>): map<K, V> {
    if ops == [] then map[] else Apply(Run(ops[..|ops| - 1]), ops[|ops| - 1])
  }

  lemma RunGrows<K, V>(ops: seq<Op<K, V>>, before: seq<Op<K, V>>)
    requires |ops| == |before| + 1 && ops[..|before|] == before
    ensures Run(ops) == Apply(Run(before), ops[|before|])
  {
  }

  ghost predicate LearnsAt<K, V>(ops: seq<Op<K, V>>, k: K, i: int) {
    0 <= i < |ops| && ops[i].Learn? && ops[i].key == k
  }

  ghost predicate ForgetsAt<K, V>(ops: seq<Op<K, V>>, k: K, i: int) {
    0 <= i < |ops| && ops[i].Forget? && ops[i].key == k
  }

  /** Position i is the first Learn of k after the last Forget of k. */
  ghost predicate Holder<K, V>(ops: seq<Op<K, V>>, k: K, i: int) {
    && LearnsAt(ops, k, i)
    && (forall j :: j > i ==> !ForgetsAt(ops, k, j))
    && (forall j :: j < i && LearnsAt(ops, k, j) ==> exists m :: j < m < i && ForgetsAt(ops, k, m))
  }

  /** Every Learn of k was later forgotten. */
  ghost predicate AllForgotten<K, V>(ops: seq<Op<K, V>>, k: K) {
    forall j :: LearnsAt(ops, k, j) ==> exists m :: m > j && ForgetsAt(ops, k, m)
  }

  /** The law of the table, for every history and every key. */
  lemma {:induction false} RunLaw<K, V>(ops: seq<Op<K, V>>, k: K)
    ensures k in Run(ops) <==> exists i :: Holder(ops, k, i)
    ensures forall i :: Holder(ops, k, i) ==> Run(ops)[k] == ops[i].value
    ensures k !in Run(ops) <==> AllForgotten(ops, k)
  {
    if k in Run(ops) {
      var i := HolderOf(ops, k);
      assert !AllForgotten(ops, k);
      forall j | Holder(ops, k, j) ensures j == i {
        HolderUnique(ops, k, i, j);
      }
    } else {
      AbsentForgotten(ops, k);
      forall i ensures !Holder(ops, k, i) {
      }
    }
  }

  lemma HolderUnique<K, V>(ops: seq<Op<K, V>>, k: K, i: int, j: int)
    requires Holder(ops, k, i) && Holder(ops, k, j)
    ensures i == j
  {
  }

  lemma {:induction false} AbsentForgotten<K, V>(ops: seq<Op<K, V>>, k: K)
    requires k !in Run(ops)
    ensures AllForgotten(ops, k)
  {
    if ops != [] {
      var n := |ops| - 1;
      var prev := ops[..n];
      if ForgetsAt(ops, k, n) {
        forall j | LearnsAt(ops, k, j) ensures exists m :: m > j && ForgetsAt(ops, k, m) {
          assert n > j;
        }
      } else {
        AbsentForgotten(prev, k);
        forall j | LearnsAt(ops, k, j) ensures exists m :: m > j && ForgetsAt(ops, k, m) {
          assert LearnsAt(prev, k, j);
          var m :| m > j && ForgetsAt(prev, k, m);
          assert ForgetsAt(ops, k, m);
        }
      }
    }
  }

  lemma {:induction false} HolderOf<K, V>(ops: seq<Op<K, V>>, k: K) returns (i: int)
    requires k in Run(ops)
    ensures Holder(ops, k, i) && Run(ops)[k] == ops[i].value
  {
    var n := |ops| - 1;
    var prev := ops[..n];
    if k in Run(prev) {
      i := HolderOf(prev, k);
      forall j | j < i && LearnsAt(ops, k, j) ensures exists m :: j < m < i && ForgetsAt(ops, k, m) {
        assert LearnsAt(prev, k, j);
        var m :| j < m < i && ForgetsAt(prev, k, m);
        assert ForgetsAt(ops, k, m);
      }
      forall j | j > i ensures !ForgetsAt(ops, k, j) {
        assert j < n ==> !ForgetsAt(prev, k, j);
      }
    } else {
      i := n;
      AbsentForgotten(prev, k);
      forall j | j < i && LearnsAt(ops, k, j) ensures exists m :: j < m < i && ForgetsAt(ops, k, m) {
        assert LearnsAt(prev, k, j);
        var m :| m > j && ForgetsAt(prev, k, m);
        assert ForgetsAt(ops, k, m);
      }
    }
  }

  /** When the key's last event is known, presence needs no search. */
  lemma {:induction false} LastDecides<K, V>(ops: seq<Op<K, V>>, k: K, i: int)
    requires LearnsAt(ops, k, i) || ForgetsAt(ops, k, i)
    requires forall j :: j > i ==> !LearnsAt(ops, k, j) && !ForgetsAt(ops, k, j)
    ensures k in Run(ops) <==> LearnsAt(ops, k, i)
  {
    RunLaw(ops, k);
    if ForgetsAt(ops, k, i) {
      forall j | LearnsAt(ops, k, j) ensures exists m :: m > j && ForgetsAt(ops, k, m) {
        assert i > j;
      }
    }
  }
}
