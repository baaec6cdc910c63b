/** Object identifiers in lexicographic order, and the contiguity of subtrees in it. */
module OidOrder {
  import opened Base

  type Oid = seq<u32>

  predicate HasPrefix(o: Oid, prefix: Oid) {
    prefix <= o
  }

  /** What lies between two members of a subtree is in the subtree. */
  lemma {:induction false} PrefixBetween(prefix: Oid, a: Oid, x: Oid, b: Oid)
    requires HasPrefix(a, prefix) && HasPrefix(b, prefix) && LexLess(a, x) && LexLess(x, b)
    ensures HasPrefix(x, prefix)
  {
    if prefix != [] {
      assert a[0] == prefix[0] == b[0];
      assert prefix[1..] <= a[1..] && prefix[1..] <= b[1..];
      PrefixBetween(prefix[1..], a[1..], x[1..], b[1..]);
      assert x == [x[0]] + x[1..] && prefix == [prefix[0]] + prefix[1..];
    }
  }

  /** A subtree's root comes before its other members. */
  lemma {:induction false} RootFirst(prefix: Oid, i: u32)
    ensures LexLess(prefix, prefix + [i])
  {
    if prefix != [] {
      RootFirst(prefix[1..], i);
      assert (prefix + [i])[1..] == prefix[1..] + [i];
    }
  }
}
