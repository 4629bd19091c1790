/** The statement total: `invoices.reduce((sum, invoice) => sum +
    (Number(invoice.details.totalAmount) || 0), 0)`. */
module Totals {
  import opened Invoices

  /** The reduce, left to right from the accumulator `acc`. */
  function TotalFrom(invoices: seq<Invoice>, acc: int): (total: int)
    decreases |invoices|
  {
    if invoices == [] then acc
    else TotalFrom(invoices[1..], acc + Coerce(invoices[0].totalAmount))
  }

  /** The reduce started from 0, as both surfaces write it. */
  function Total(invoices: seq<Invoice>): (total: int)
  {
    TotalFrom(invoices, 0)
  }

  /** Reference definition: the plain sum of the coerced amounts. */
  function Sum(invoices: seq<Invoice>): (sum: int)
    decreases |invoices|
  {
    if invoices == [] then 0
    else Coerce(invoices[0].totalAmount) + Sum(invoices[1..])
  }

  lemma {:induction false} TotalFromIsSum(invoices: seq<Invoice>, acc: int)
    ensures TotalFrom(invoices, acc) == acc + Sum(invoices)
    decreases |invoices|
  {
    if invoices != [] {
      TotalFromIsSum(invoices[1..], acc + Coerce(invoices[0].totalAmount));
    }
  }

  /** The reduce computes the sum of the coerced amounts of every invoice. */
  lemma TotalIsSum(invoices: seq<Invoice>)
    ensures Total(invoices) == Sum(invoices)
  {
    TotalFromIsSum(invoices, 0);
  }

  lemma {:induction false} SumAppend(a: seq<Invoice>, b: seq<Invoice>)
    ensures Sum(a + b) == Sum(a) + Sum(b)
    decreases |a|
  {
    if a == [] {
      assert a + b == b;
    } else {
      assert (a + b)[1..] == a[1..] + b;
      SumAppend(a[1..], b);
    }
  }

  /** Taking one invoice out of the list takes exactly its coerced amount out of the sum. */
  lemma SumRemove(s: seq<Invoice>, i: nat)
    requires i < |s|
    ensures Sum(s) == Coerce(s[i].totalAmount) + Sum(s[..i] + s[i + 1..])
  {
    assert s == s[..i] + ([s[i]] + s[i + 1..]);
    SumAppend(s[..i], [s[i]] + s[i + 1..]);
    SumAppend(s[..i], s[i + 1..]);
    assert ([s[i]] + s[i + 1..])[1..] == s[i + 1..];
  }

  lemma RemoveMultiset<T>(t: seq<T>, i: nat)
    requires i < |t|
    ensures multiset(t) == multiset(t[..i] + t[i + 1..]) + multiset{t[i]}
  {
    assert t == t[..i] + [t[i]] + t[i + 1..];
  }

  /** The sum depends only on which invoices there are, not on their order. */
  lemma {:induction false} SumPermutation(s: seq<Invoice>, t: seq<Invoice>)
    requires multiset(s) == multiset(t)
    ensures Sum(s) == Sum(t)
    decreases |s|
  {
    if s == [] {
      assert |t| == |multiset(t)| == 0;
    } else {
      assert s[0] in multiset(t);
      var i :| 0 <= i < |t| && t[i] == s[0];
      var rest := t[..i] + t[i + 1..];
      RemoveMultiset(t, i);
      assert s == [s[0]] + s[1..];
      assert multiset(s) == multiset(s[1..]) + multiset{s[0]};
      assert multiset(s[1..]) == multiset(s) - multiset{s[0]};
      assert multiset(rest) == multiset(t) - multiset{t[i]};
      SumPermutation(s[1..], rest);
      SumRemove(t, i);
    }
  }

  /** The total is the same whether the reduce runs over the input or over any
      reordering of it, such as the sorted copy. */
  lemma TotalPermutation(s: seq<Invoice>, t: seq<Invoice>)
    requires multiset(s) == multiset(t)
    ensures Total(s) == Total(t)
  {
    TotalIsSum(s);
    TotalIsSum(t);
    SumPermutation(s, t);
  }

  /** The total reads nothing but the amounts: changing the line items, or any other
      field, of any invoice leaves it unchanged. */
  lemma {:induction false} TotalIgnoresOtherFields(s: seq<Invoice>, t: seq<Invoice>)
    requires |s| == |t|
    requires forall i :: 0 <= i < |s| ==> s[i].totalAmount == t[i].totalAmount
    ensures Total(s) == Total(t)
  {
    TotalIsSum(s);
    TotalIsSum(t);
    SumSameAmounts(s, t);
  }

  lemma {:induction false} SumSameAmounts(s: seq<Invoice>, t: seq<Invoice>)
    requires |s| == |t|
    requires forall i :: 0 <= i < |s| ==> s[i].totalAmount == t[i].totalAmount
    ensures Sum(s) == Sum(t)
    decreases |s|
  {
    if s != [] {
      SumSameAmounts(s[1..], t[1..]);
    }
  }
}
