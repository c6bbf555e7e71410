/** Small shared vocabulary: an optional value, bytes, and finite sums over the values of a map. */
module Prelude {

  datatype Option<+T> = None | Some(value: T)

  newtype Byte = x: int | 0 <= x < 256

  type Bytes = seq<Byte>

  /** The sum of all values of a finite map. */
  ghost function Sum(w: map<string, nat>): nat
    decreases |w|
  {
    if w == map[] then 0
    else
      var k :| k in w;
      assert (w - {k}).Keys == w.Keys - {k};
      w[k] + Sum(w - {k})
  }

  /** The sum does not depend on the order in which keys are taken out. */
  lemma {:induction false} SumWithout(w: map<string, nat>, k: string)
    requires k in w
    ensures Sum(w) == w[k] + Sum(w - {k})
    decreases |w|
  {
    var j :| j in w && Sum(w) == w[j] + Sum(w - {j});
    if j != k {
      assert (w - {j}).Keys == w.Keys - {j};
      assert (w - {k}).Keys == w.Keys - {k};
      SumWithout(w - {j}, k);
      SumWithout(w - {k}, j);
      assert w - {j} - {k} == w - {k} - {j};
    }
  }

  lemma {:induction false} SumUpdate(w: map<string, nat>, k: string, x: nat)
    ensures Sum(w[k := x]) == Sum(w - {k}) + x
    ensures k in w ==> Sum(w) == w[k] + Sum(w - {k})
    ensures k !in w ==> w - {k} == w
  {
    SumWithout(w[k := x], k);
    assert w[k := x] - {k} == w - {k};
    if k in w { SumWithout(w, k); }
  }

  lemma {:induction false} SumZero(w: map<string, nat>)
    ensures Sum(w) == 0 <==> forall k | k in w :: w[k] == 0
    decreases |w|
  {
    if w != map[] {
      var k :| k in w;
      SumWithout(w, k);
      assert (w - {k}).Keys == w.Keys - {k};
      SumZero(w - {k});
      if forall j | j in w - {k} :: (w - {k})[j] == 0 {
        assert forall j | j in w :: j != k ==> j in w - {k};
      } else {
        var j :| j in w - {k} && (w - {k})[j] != 0;
        assert w[j] != 0;
      }
    }
  }

  /** A sum of zeros and ones counts the ones. */
  lemma {:induction false} SumOfOnes(w: map<string, nat>)
    requires forall k | k in w :: w[k] <= 1
    ensures Sum(w) == |set k | k in w && w[k] == 1|
    decreases |w|
  {
    var ones := set k | k in w && w[k] == 1;
    if w == map[] {
      assert ones == {};
    } else {
      var k :| k in w;
      var rest := w - {k};
      SumWithout(w, k);
      assert rest.Keys == w.Keys - {k};
      SumOfOnes(rest);
      var others := set j | j in rest && rest[j] == 1;
      assert ones == others + if w[k] == 1 then {k} else {};
    }
  }

  lemma SubsetNotLarger<T>(s: set<T>, u: set<T>)
    requires s <= u
    ensures |s| <= |u|
  {
    assert u == s + (u - s);
  }

  lemma Associate<T>(a: seq<T>, b: seq<T>, c: seq<T>)
    ensures a + b + c == a + (b + c)
  {}
}
