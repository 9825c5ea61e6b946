/**
 * The waiting queue of socket ids and the one operation the server applies
 * to it besides `shift` and `push`: `filter(id => id !== x)`.
 */
module WaitingQueue {

  /** A queue in which no socket id appears twice. */
  predicate NoDuplicates(q: seq<string>) {
    forall i, j :: 0 <= i < j < |q| ==> q[i] != q[j]
  }

  /** `q.filter(x => x !== id)`: every occurrence of `id` removed, the rest in order. */
  function Without(q: seq<string>, id: string): (r: seq<string>)
    ensures forall x :: x in r <==> x in q && x != id
    ensures |r| <= |q|
    ensures id !in q ==> r == q
  {
    if q == [] then []
    else if q[0] == id then Without(q[1..], id)
    else [q[0]] + Without(q[1..], id)
  }

  /** Filtering splits over concatenation, so the survivors keep their relative order. */
  lemma {:induction false} WithoutAppend(a: seq<string>, b: seq<string>, id: string)
    ensures Without(a + b, id) == Without(a, id) + Without(b, id)
  {
    if a == [] {
      assert a + b == b;
    } else {
      assert (a + b)[1..] == a[1..] + b;
      WithoutAppend(a[1..], b, id);
    }
  }

  /** Filtering keeps the number of occurrences of every other id and drops those of `id`. */
  lemma {:induction false} WithoutCounts(q: seq<string>, id: string)
    ensures multiset(Without(q, id))[id] == 0
    ensures forall x :: x != id ==> multiset(Without(q, id))[x] == multiset(q)[x]
  {
    if q != [] {
      WithoutCounts(q[1..], id);
      assert q == [q[0]] + q[1..];
    }
  }

  /** A queue holds no id twice exactly when every id occurs in it at most once. */
  lemma {:induction false} NoDuplicatesCounts(q: seq<string>)
    ensures NoDuplicates(q) <==> forall x :: multiset(q)[x] <= 1
  {
    if q != [] {
      NoDuplicatesCounts(q[1..]);
      assert q == [q[0]] + q[1..];
      if NoDuplicates(q) {
        assert NoDuplicates(q[1..]) by {
          forall i, j | 0 <= i < j < |q[1..]| ensures q[1..][i] != q[1..][j] {
            assert q[1..][i] == q[i + 1] && q[1..][j] == q[j + 1];
          }
        }
      }
      if forall x :: multiset(q)[x] <= 1 {
        assert forall x :: multiset(q[1..])[x] <= multiset(q)[x];
        assert multiset(q) == multiset{q[0]} + multiset(q[1..]);
        assert multiset(q[1..])[q[0]] == 0;
        forall i, j | 0 <= i < j < |q| ensures q[i] != q[j] {
          if i == 0 {
            assert q[j] == q[1..][j - 1];
          } else {
            assert q[i] == q[1..][i - 1] && q[j] == q[1..][j - 1];
          }
        }
      }
    }
  }

  /** Filtering a queue without duplicates leaves a queue without duplicates. */
  lemma WithoutNoDuplicates(q: seq<string>, id: string)
    ensures NoDuplicates(q) ==> NoDuplicates(Without(q, id))
  {
    NoDuplicatesCounts(q);
    WithoutCounts(q, id);
    NoDuplicatesCounts(Without(q, id));
  }

  /** Appending an id that is not queued yet keeps the queue free of duplicates. */
  lemma AppendFreshNoDuplicates(q: seq<string>, x: string)
    requires NoDuplicates(q) && x !in q
    ensures NoDuplicates(q + [x])
  {
    forall i, j | 0 <= i < j < |q + [x]| ensures (q + [x])[i] != (q + [x])[j] {
      if j == |q| {
        assert (q + [x])[i] == q[i];
      } else {
        assert (q + [x])[i] == q[i] && (q + [x])[j] == q[j];
      }
    }
  }

  /** The head of a filtered queue without duplicates does not occur again behind it. */
  lemma WithoutNoDuplicatesHead(q: seq<string>, id: string)
    ensures var w := Without(q, id); NoDuplicates(q) && w != [] ==> NoDuplicates(w[1..]) && w[0] !in w[1..]
  {
    var w := Without(q, id);
    if NoDuplicates(q) && w != [] {
      WithoutNoDuplicates(q, id);
      forall k | 0 <= k < |w[1..]| ensures w[1..][k] != w[0] {
        assert w[1..][k] == w[k + 1];
      }
    }
  }

  /** Re-queuing `id` behind a filtered queue without duplicates keeps it free of duplicates. */
  lemma WithoutNoDuplicatesTail(q: seq<string>, id: string)
    ensures var w := Without(q, id); NoDuplicates(q) ==> NoDuplicates((if w == [] then [] else w[1..]) + [id])
  {
    if !NoDuplicates(q) {
      return;
    }
    var w := Without(q, id);
    WithoutNoDuplicates(q, id);
    var rest := if w == [] then [] else w[1..];
    assert NoDuplicates(rest) by {
      forall i, j | 0 <= i < j < |rest| ensures rest[i] != rest[j] {
        assert rest[i] == w[i + 1] && rest[j] == w[j + 1];
      }
    }
    assert id !in rest by {
      assert forall x :: x in rest ==> x in w;
    }
    AppendFreshNoDuplicates(rest, id);
  }

  /**
   * A caller that was already waiting and asks again loses its place: the
   * other waiters keep their order and it moves to the back (or is matched
   * with the first of them).
   */
  lemma RequeueKeepsOthersInOrder(before: seq<string>, self: string, after: seq<string>)
    requires self !in before && self !in after
    ensures Without(before + [self] + after, self) == before + after
  {
    WithoutAppend(before + [self], after, self);
    WithoutAppend(before, [self], self);
  }
}
