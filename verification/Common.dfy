/** Small shared vocabulary: options, saturating 64-bit arithmetic and visiting orders of finite sets. */
module Common {

  datatype Option<+T> = None | Some(value: T)

  /** Names chosen outside the modelled code: ids of devices, hosts, peers and jobs' keys, texts of requests.
      Nothing here depends on how they are spelt, only on which of them are equal. */
  type Name(==, !new)

  newtype Byte = x: int | 0 <= x < 256
  type Bytes = seq<Byte>

  const U64_MAX: nat := 0xFFFF_FFFF_FFFF_FFFF
  type U64 = n: nat | n <= 0xFFFF_FFFF_FFFF_FFFF

  /** Saturating addition on unsigned 64-bit integers. */
  function SatAdd(a: nat, b: nat): nat {
    if a + b > U64_MAX then U64_MAX else a + b
  }

  /** `order` visits every element of `s` exactly once. Hash maps promise no more than this. */
  predicate IsOrderOf<T(==)>(order: seq<T>, s: set<T>) {
    && (forall x | x in order :: x in s)
    && (forall x | x in s :: x in order)
    && (forall i, j | 0 <= i < j < |order| :: order[i] != order[j])
  }

  /** Dropping the first visited element leaves an order of the remaining set. */
  lemma OrderTail<T>(order: seq<T>, s: set<T>)
    requires IsOrderOf(order, s) && order != []
    ensures order[0] in s && IsOrderOf(order[1..], s - {order[0]})
  {
    forall x | x in s - {order[0]} ensures x in order[1..] {
      var i :| 0 <= i < |order| && order[i] == x;
      assert order[1..][i - 1] == x;
    }
  }

  lemma OrderOfNothing<T>(order: seq<T>)
    requires IsOrderOf(order, {})
    ensures order == []
  {
    if order != [] { OrderTail(order, {}); }
  }

  lemma OrderSnoc<T>(order: seq<T>, s: set<T>, x: T)
    requires IsOrderOf(order, s) && x !in s
    ensures IsOrderOf(order + [x], s + {x})
  {
  }

  /** `part` is what remains of `whole` when some of its entries are struck out. */
  predicate Subsequence<T(==)>(part: seq<T>, whole: seq<T>) {
    || part == []
    || (whole != [] && part[0] == whole[0] && Subsequence(part[1..], whole[1..]))
    || (whole != [] && Subsequence(part, whole[1..]))
  }
}
