/** The two expansions of a scenario matrix: `itertools.product` in the Python
    runner, where the last list varies fastest, and a jq `reduce` in the shell
    runner, where the first one does. */
module Matrix {

  /** One block of combinations per value of the leading list. */
  function Outer<V>(values: seq<V>, rest: seq<seq<V>>): seq<seq<V>> {
    if values == [] then []
    else seq(|rest|, i requires 0 <= i < |rest| => [values[0]] + rest[i]) + Outer(values[1..], rest)
  }

  function Product<V>(lists: seq<seq<V>>): seq<seq<V>> {
    if lists == [] then [[]] else Outer(lists[0], Product(lists[1..]))
  }

  /** One `reduce` step: for every value, every combination so far extended by it. */
  function JqStep<V>(acc: seq<seq<V>>, values: seq<V>): seq<seq<V>> {
    if values == [] then []
    else seq(|acc|, i requires 0 <= i < |acc| => acc[i] + [values[0]]) + JqStep(acc, values[1..])
  }

  function JqExpand<V>(lists: seq<seq<V>>): seq<seq<V>> {
    if lists == [] then [[]]
    else JqStep(JqExpand(lists[..|lists| - 1]), lists[|lists| - 1])
  }

  function Total<V>(lists: seq<seq<V>>): nat {
    if lists == [] then 1 else |lists[0]| * Total(lists[1..])
  }

  /** `digits` picks a position in each list. */
  predicate Digits<V>(lists: seq<seq<V>>, digits: seq<nat>) {
    |digits| == |lists| && forall k :: 0 <= k < |lists| ==> digits[k] < |lists[k]|
  }

  function Select<V>(lists: seq<seq<V>>, digits: seq<nat>): seq<V>
    requires Digits(lists, digits)
  {
    seq(|lists|, k requires 0 <= k < |lists| => lists[k][digits[k]])
  }

  // Mixed-radix positions, most significant list first (product) or last (jq).

  function PyIndex<V>(lists: seq<seq<V>>, digits: seq<nat>): nat
    requires |digits| == |lists|
  {
    if lists == [] then 0 else digits[0] * Total(lists[1..]) + PyIndex(lists[1..], digits[1..])
  }

  function JqIndex<V>(lists: seq<seq<V>>, digits: seq<nat>): nat
    requires |digits| == |lists|
  {
    if lists == [] then 0
    else
      var n := |lists| - 1;
      JqIndex(lists[..n], digits[..n]) + digits[n] * Total(lists[..n])
  }

  function PyDigits<V>(lists: seq<seq<V>>, index: nat): seq<nat>
    requires Total(lists) > 0
  {
    if lists == [] then []
    else
      TotalPositive(lists);
      [index / Total(lists[1..])] + PyDigits(lists[1..], index % Total(lists[1..]))
  }

  function JqDigits<V>(lists: seq<seq<V>>, index: nat): seq<nat>
    requires Total(lists) > 0
  {
    if lists == [] then []
    else
      var n := |lists| - 1;
      TotalLast(lists);
      JqDigits(lists[..n], index % Total(lists[..n])) + [index / Total(lists[..n])]
  }

  // --------------------------------------------------------------- arithmetic

  lemma MulPositive(a: nat, b: nat)
    ensures a * b > 0 <==> a > 0 && b > 0
  {
  }

  lemma TotalPositive<V>(lists: seq<seq<V>>)
    requires lists != []
    ensures Total(lists) > 0 <==> |lists[0]| > 0 && Total(lists[1..]) > 0
  {
    MulPositive(|lists[0]|, Total(lists[1..]));
  }

  lemma {:induction false} TotalLast<V>(lists: seq<seq<V>>)
    requires lists != []
    ensures Total(lists) == Total(lists[..|lists| - 1]) * |lists[|lists| - 1]|
    ensures Total(lists) > 0 <==> Total(lists[..|lists| - 1]) > 0 && |lists[|lists| - 1]| > 0
  {
    var n := |lists| - 1;
    if n == 0 {
      assert lists[..0] == [] && lists[1..] == [];
    } else {
      TotalLast(lists[1..]);
      assert lists[1..][..n - 1] == lists[..n][1..];
      var head, mid, last := |lists[0]|, Total(lists[1..][..n - 1]), |lists[n]|;
      assert lists[1..][n - 1] == lists[n];
      assert head * (mid * last) == (head * mid) * last;
    }
    MulPositive(Total(lists[..n]), |lists[n]|);
  }

  lemma BlockIndex(q: nat, r: nat, block: nat, blocks: nat)
    requires r < block && q < blocks
    ensures q * block + r < blocks * block
    ensures (q * block + r) / block == q && (q * block + r) % block == r
  {
    assert q * block + block == (q + 1) * block <= blocks * block;
    DivMod(q, r, block);
  }

  lemma MulMonotone(a: nat, b: nat, block: nat)
    requires a <= b
    ensures a * block <= b * block
  {
  }

  lemma SmallMultiple(d: int, block: nat)
    requires -(block as int) < d * block < block
    ensures d == 0
  {
    assert -d * block == -(d * block);
    if d > 0 {
      MulMonotone(1, d, block);
      assert false;
    } else if d < 0 {
      MulMonotone(1, -d, block);
      assert false;
    }
  }

  lemma DivMod(q: nat, r: nat, block: nat)
    requires r < block
    ensures (q * block + r) / block == q && (q * block + r) % block == r
  {
    var x := q * block + r;
    var q', r' := x / block, x % block;
    assert x == block * q' + r';
    assert (q - q') * block == q * block - block * q' == r' - r;
    SmallMultiple(q - q', block);
  }

  lemma DivBound(x: nat, block: nat, blocks: nat)
    requires block > 0 && x < blocks * block
    ensures x / block < blocks && x / block * block + x % block == x
  {
    var q := x / block;
    assert q * block <= x;
    if q >= blocks {
      MulMonotone(blocks, q, block);
      assert false;
    }
  }

  // ------------------------------------------------------------ block lookup

  lemma {:induction false} OuterAt<V>(values: seq<V>, rest: seq<seq<V>>, q: nat, r: nat)
    requires q < |values| && r < |rest|
    ensures |Outer(values, rest)| == |values| * |rest|
    ensures q * |rest| + r < |values| * |rest|
    ensures Outer(values, rest)[q * |rest| + r] == [values[q]] + rest[r]
  {
    OuterLength(values, rest);
    BlockIndex(q, r, |rest|, |values|);
    if q > 0 {
      OuterAt(values[1..], rest, q - 1, r);
      assert q * |rest| + r - |rest| == (q - 1) * |rest| + r;
    }
  }

  lemma {:induction false} OuterLength<V>(values: seq<V>, rest: seq<seq<V>>)
    ensures |Outer(values, rest)| == |values| * |rest|
  {
    if values != [] {
      OuterLength(values[1..], rest);
      assert |rest| + (|values| - 1) * |rest| == |values| * |rest|;
    }
  }

  lemma {:induction false} JqStepAt<V>(acc: seq<seq<V>>, values: seq<V>, q: nat, r: nat)
    requires q < |values| && r < |acc|
    ensures |JqStep(acc, values)| == |values| * |acc|
    ensures q * |acc| + r < |values| * |acc|
    ensures JqStep(acc, values)[q * |acc| + r] == acc[r] + [values[q]]
  {
    JqStepLength(acc, values);
    BlockIndex(q, r, |acc|, |values|);
    if q > 0 {
      JqStepAt(acc, values[1..], q - 1, r);
      assert q * |acc| + r - |acc| == (q - 1) * |acc| + r;
    }
  }

  lemma {:induction false} JqStepLength<V>(acc: seq<seq<V>>, values: seq<V>)
    ensures |JqStep(acc, values)| == |values| * |acc|
  {
    if values != [] {
      JqStepLength(acc, values[1..]);
      assert |acc| + (|values| - 1) * |acc| == |values| * |acc|;
    }
  }

  // ------------------------------------------------- what is at each position

  lemma {:induction false} ProductLength<V>(lists: seq<seq<V>>)
    ensures |Product(lists)| == Total(lists)
  {
    if lists != [] {
      ProductLength(lists[1..]);
      OuterLength(lists[0], Product(lists[1..]));
    }
  }

  lemma {:induction false} JqLength<V>(lists: seq<seq<V>>)
    ensures |JqExpand(lists)| == Total(lists)
  {
    if lists != [] {
      var n := |lists| - 1;
      JqLength(lists[..n]);
      JqStepLength(JqExpand(lists[..n]), lists[n]);
      TotalLast(lists);
      assert Total(lists[..n]) * |lists[n]| == |lists[n]| * Total(lists[..n]);
    }
  }

  /** Python's product: the combination picked by `digits` is at the mixed-radix
      position whose least significant list is the last one. */
  lemma {:induction false} ProductAt<V>(lists: seq<seq<V>>, digits: seq<nat>)
    requires Digits(lists, digits)
    ensures PyIndex(lists, digits) < Total(lists) == |Product(lists)|
    ensures Product(lists)[PyIndex(lists, digits)] == Select(lists, digits)
    ensures PyDigits(lists, PyIndex(lists, digits)) == digits
  {
    ProductLength(lists);
    if lists != [] {
      var rest := lists[1..];
      ProductAt(rest, digits[1..]);
      ProductLength(rest);
      OuterAt(lists[0], Product(rest), digits[0], PyIndex(rest, digits[1..]));
      assert [lists[0][digits[0]]] + Select(rest, digits[1..]) == Select(lists, digits);
      DivMod(digits[0], PyIndex(rest, digits[1..]), Total(rest));
      assert [digits[0]] + digits[1..] == digits;
    }
  }

  lemma {:induction false} JqAt<V>(lists: seq<seq<V>>, digits: seq<nat>)
    requires Digits(lists, digits)
    ensures JqIndex(lists, digits) < Total(lists) == |JqExpand(lists)|
    ensures JqExpand(lists)[JqIndex(lists, digits)] == Select(lists, digits)
    ensures JqDigits(lists, JqIndex(lists, digits)) == digits
  {
    JqLength(lists);
    if lists != [] {
      var n := |lists| - 1;
      var front := lists[..n];
      JqAt(front, digits[..n]);
      JqStepAt(JqExpand(front), lists[n], digits[n], JqIndex(front, digits[..n]));
      SelectLast(lists, digits);
      JqDigitsLast(lists, digits);
    }
  }

  lemma SelectLast<V>(lists: seq<seq<V>>, digits: seq<nat>)
    requires lists != [] && Digits(lists, digits)
    ensures var n := |lists| - 1;
            Digits(lists[..n], digits[..n])
            && Select(lists[..n], digits[..n]) + [lists[n][digits[n]]] == Select(lists, digits)
  {
  }

  lemma JqDigitsLast<V>(lists: seq<seq<V>>, digits: seq<nat>)
    requires lists != [] && Digits(lists, digits)
    requires var n := |lists| - 1;
             && JqIndex(lists[..n], digits[..n]) < Total(lists[..n])
             && JqDigits(lists[..n], JqIndex(lists[..n], digits[..n])) == digits[..n]
    ensures Total(lists) > 0 && JqDigits(lists, JqIndex(lists, digits)) == digits
  {
    var n := |lists| - 1;
    TotalLast(lists);
    DivMod(digits[n], JqIndex(lists[..n], digits[..n]), Total(lists[..n]));
    assert digits[..n] + [digits[n]] == digits;
  }

  lemma {:induction false} PyDigitsOnto<V>(lists: seq<seq<V>>, index: nat)
    requires index < Total(lists)
    ensures Digits(lists, PyDigits(lists, index)) && PyIndex(lists, PyDigits(lists, index)) == index
  {
    if lists != [] {
      var rest := lists[1..];
      TotalPositive(lists);
      DivBound(index, Total(rest), |lists[0]|);
      PyDigitsOnto(rest, index % Total(rest));
      assert PyDigits(lists, index)[1..] == PyDigits(rest, index % Total(rest));
    }
  }

  lemma {:induction false} JqDigitsOnto<V>(lists: seq<seq<V>>, index: nat)
    requires index < Total(lists)
    ensures Digits(lists, JqDigits(lists, index)) && JqIndex(lists, JqDigits(lists, index)) == index
  {
    if lists != [] {
      var n := |lists| - 1;
      var front := lists[..n];
      TotalLast(lists);
      assert Total(front) * |lists[n]| == |lists[n]| * Total(front);
      DivBound(index, Total(front), |lists[n]|);
      JqDigitsOnto(front, index % Total(front));
      var digits := JqDigits(lists, index);
      assert digits[..n] == JqDigits(front, index % Total(front));
    }
  }

  /** Where the Python runner's `index`-th scenario sits in the shell runner's list. */
  function ToJq<V>(lists: seq<seq<V>>, index: nat): nat
    requires index < Total(lists)
  {
    PyDigitsOnto(lists, index);
    JqIndex(lists, PyDigits(lists, index))
  }

  function ToPy<V>(lists: seq<seq<V>>, index: nat): nat
    requires index < Total(lists)
  {
    JqDigitsOnto(lists, index);
    PyIndex(lists, JqDigits(lists, index))
  }

  /** The two expansions are permutations of each other: `ToJq` and `ToPy` are
      mutually inverse on the positions and carry each list onto the other. */
  lemma ExpansionsPermute<V>(lists: seq<seq<V>>)
    ensures |Product(lists)| == |JqExpand(lists)| == Total(lists)
    ensures forall i :: 0 <= i < Total(lists) ==>
              && ToJq(lists, i) < Total(lists)
              && JqExpand(lists)[ToJq(lists, i)] == Product(lists)[i]
              && ToPy(lists, ToJq(lists, i)) == i
    ensures forall j :: 0 <= j < Total(lists) ==>
              && ToPy(lists, j) < Total(lists)
              && Product(lists)[ToPy(lists, j)] == JqExpand(lists)[j]
              && ToJq(lists, ToPy(lists, j)) == j
  {
    ProductLength(lists);
    JqLength(lists);
    forall i | 0 <= i < Total(lists)
      ensures ToJq(lists, i) < Total(lists)
      ensures JqExpand(lists)[ToJq(lists, i)] == Product(lists)[i]
      ensures ToPy(lists, ToJq(lists, i)) == i
    {
      PyDigitsOnto(lists, i);
      ProductAt(lists, PyDigits(lists, i));
      JqAt(lists, PyDigits(lists, i));
    }
    forall j | 0 <= j < Total(lists)
      ensures ToPy(lists, j) < Total(lists)
      ensures Product(lists)[ToPy(lists, j)] == JqExpand(lists)[j]
      ensures ToJq(lists, ToPy(lists, j)) == j
    {
      JqDigitsOnto(lists, j);
      ProductAt(lists, JqDigits(lists, j));
      JqAt(lists, JqDigits(lists, j));
    }
  }

  predicate Distinct<V(==)>(values: seq<V>) {
    forall i, j :: 0 <= i < j < |values| ==> values[i] != values[j]
  }

  /** With distinct values in every list, every combination occurs exactly once. */
  lemma EachCombinationOnce<V(!new)>(lists: seq<seq<V>>, digits: seq<nat>)
    requires forall k :: 0 <= k < |lists| ==> Distinct(lists[k])
    requires Digits(lists, digits)
    ensures forall i :: 0 <= i < |Product(lists)| ==>
              (Product(lists)[i] == Select(lists, digits) <==> i == PyIndex(lists, digits))
    ensures forall j :: 0 <= j < |JqExpand(lists)| ==>
              (JqExpand(lists)[j] == Select(lists, digits) <==> j == JqIndex(lists, digits))
  {
    ProductAt(lists, digits);
    JqAt(lists, digits);
    forall i | 0 <= i < |Product(lists)| && Product(lists)[i] == Select(lists, digits)
      ensures i == PyIndex(lists, digits)
    {
      PyDigitsOnto(lists, i);
      ProductAt(lists, PyDigits(lists, i));
      SelectInjective(lists, PyDigits(lists, i), digits);
    }
    forall j | 0 <= j < |JqExpand(lists)| && JqExpand(lists)[j] == Select(lists, digits)
      ensures j == JqIndex(lists, digits)
    {
      JqDigitsOnto(lists, j);
      JqAt(lists, JqDigits(lists, j));
      SelectInjective(lists, JqDigits(lists, j), digits);
    }
  }

  lemma SelectInjective<V>(lists: seq<seq<V>>, a: seq<nat>, b: seq<nat>)
    requires forall k :: 0 <= k < |lists| ==> Distinct(lists[k])
    requires Digits(lists, a) && Digits(lists, b) && Select(lists, a) == Select(lists, b)
    ensures a == b
  {
    forall k | 0 <= k < |lists| ensures a[k] == b[k] {
      assert Select(lists, a)[k] == Select(lists, b)[k];
    }
  }
}
