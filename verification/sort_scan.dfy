/** The two generic GPU primitives the render pipeline calls:
    `radix_argsort` (brush_sort) and `prefix_sum` (brush_prefix_sum). Their
    implementations live in other crates; here each has a sequential reference
    definition that meets the contract render.rs relies on. */
module SortScan {
  import opened RenderSizes

  // ---------------------------------------------------------------------------
  // Stable sort of (key, payload) pairs

  predicate SortedByKey<P>(s: seq<(nat, P)>) {
    forall i, j :: 0 <= i < j < |s| ==> s[i].0 <= s[j].0
  }

  /** The payloads whose key is `k`, in the order they appear in `s`. Two
      sequences with equal `WithKey` for every key hold the same pairs, and the
      pairs sharing a key come in the same relative order: this is what a
      stable sort keeps. */
  function WithKey<P>(s: seq<(nat, P)>, k: nat): seq<P> {
    if s == [] then []
    else WithKey(s[..|s| - 1], k) + (if s[|s| - 1].0 == k then [s[|s| - 1].1] else [])
  }

  lemma {:induction false} WithKeyAppend<P>(a: seq<(nat, P)>, b: seq<(nat, P)>, k: nat)
    ensures WithKey(a + b, k) == WithKey(a, k) + WithKey(b, k)
  {
    if b == [] {
      assert a + b == a;
    } else {
      var last := b[|b| - 1];
      assert (a + b)[..|a + b| - 1] == a + b[..|b| - 1];
      WithKeyAppend(a, b[..|b| - 1], k);
    }
  }

  lemma WithKeySingle<P>(x: (nat, P), k: nat)
    ensures WithKey([x], k) == if x.0 == k then [x.1] else []
  {
    assert [x][..0] == [];
  }

  /** A sequence with no pair keyed `k` contributes nothing to `WithKey(_, k)`. */
  lemma {:induction false} WithKeyNone<P>(s: seq<(nat, P)>, k: nat)
    requires forall i :: 0 <= i < |s| ==> s[i].0 != k
    ensures WithKey(s, k) == []
  {
    if s != [] {
      WithKeyNone(s[..|s| - 1], k);
    }
  }

  /** A sequence keyed `k` throughout contributes all of its payloads. */
  lemma {:induction false} WithKeyAll<P>(s: seq<(nat, P)>, k: nat)
    requires forall i :: 0 <= i < |s| ==> s[i].0 == k
    ensures WithKey(s, k) == PayloadsOf(s)
  {
    if s != [] {
      WithKeyAll(s[..|s| - 1], k);
      assert PayloadsOf(s) == PayloadsOf(s[..|s| - 1]) + [s[|s| - 1].1];
    }
  }

  /** When the pairs keyed `k` are exactly those at positions `a..b`, the
      payloads with key `k` are the payloads of that slice. */
  lemma {:induction false} WithKeyOfRun<P>(s: seq<(nat, P)>, k: nat, a: nat, b: nat)
    requires a <= b <= |s|
    requires forall i :: 0 <= i < |s| ==> (s[i].0 == k <==> a <= i < b)
    ensures |WithKey(s, k)| == b - a
    ensures forall i :: a <= i < b ==> WithKey(s, k)[i - a] == s[i].1
  {
    if s != [] {
      var m := |s| - 1;
      var init := s[..m];
      if m < a {
        WithKeyNone(s, k);
      } else if m < b {
        WithKeyOfRun(init, k, a, m);
      } else {
        WithKeyOfRun(init, k, a, b);
      }
    }
  }

  /** Inserts `x` behind every pair whose key is not larger than its own. */
  function InsertStable<P>(x: (nat, P), s: seq<(nat, P)>): (r: seq<(nat, P)>)
    ensures |r| == |s| + 1
  {
    if s == [] || s[|s| - 1].0 <= x.0 then s + [x]
    else InsertStable(x, s[..|s| - 1]) + [s[|s| - 1]]
  }

  lemma {:induction false} InsertStableMultiset<P>(x: (nat, P), s: seq<(nat, P)>)
    ensures multiset(InsertStable(x, s)) == multiset(s) + multiset{x}
  {
    if !(s == [] || s[|s| - 1].0 <= x.0) {
      var init := s[..|s| - 1];
      assert s == init + [s[|s| - 1]];
      InsertStableMultiset(x, init);
    }
  }

  lemma {:induction false} InsertStableSorted<P>(x: (nat, P), s: seq<(nat, P)>)
    requires SortedByKey(s)
    ensures SortedByKey(InsertStable(x, s))
  {
    if !(s == [] || s[|s| - 1].0 <= x.0) {
      var init := s[..|s| - 1];
      var y := s[|s| - 1];
      assert s == init + [y];
      var r' := InsertStable(x, init);
      InsertStableSorted(x, init);
      InsertStableMultiset(x, init);
      forall i | 0 <= i < |r'| ensures r'[i].0 <= y.0 {
        assert r'[i] in multiset(r');
        if r'[i] != x {
          assert r'[i] in multiset(init);
          var j :| 0 <= j < |init| && init[j] == r'[i];
          assert s[j] == init[j];
        }
      }
    }
  }

  lemma {:induction false} InsertStableWithKey<P>(x: (nat, P), s: seq<(nat, P)>, k: nat)
    ensures WithKey(InsertStable(x, s), k) == WithKey(s, k) + WithKey([x], k)
  {
    if s == [] || s[|s| - 1].0 <= x.0 {
      WithKeyAppend(s, [x], k);
    } else {
      var init := s[..|s| - 1];
      var y := s[|s| - 1];
      assert s == init + [y];
      var r' := InsertStable(x, init);
      var before, mine, theirs := WithKey(init, k), WithKey([x], k), WithKey([y], k);
      assert WithKey(InsertStable(x, s), k) == WithKey(r', k) + theirs by {
        WithKeyAppend(r', [y], k);
      }
      assert WithKey(r', k) == before + mine by {
        InsertStableWithKey(x, init, k);
      }
      assert WithKey(s, k) == before + theirs by {
        WithKeyAppend(init, [y], k);
      }
      assert mine == [] || theirs == [] by {
        WithKeySingle(x, k);
        WithKeySingle(y, k);
      }
      if mine == [] {
        assert before + mine == before;
        assert WithKey(s, k) + mine == WithKey(s, k);
      } else {
        assert before + theirs == before;
        assert WithKey(r', k) + theirs == WithKey(r', k);
      }
    }
  }

  /** A stable insertion sort by key. */
  function SortByKey<P>(s: seq<(nat, P)>): (r: seq<(nat, P)>)
    ensures |r| == |s|
  {
    if s == [] then [] else InsertStable(s[|s| - 1], SortByKey(s[..|s| - 1]))
  }

  /** The sort orders by key, keeps every pair, and keeps the order of the
      pairs that share a key. */
  lemma {:induction false} SortByKeyCorrect<P>(s: seq<(nat, P)>)
    ensures SortedByKey(SortByKey(s))
    ensures multiset(SortByKey(s)) == multiset(s)
    ensures forall k :: WithKey(SortByKey(s), k) == WithKey(s, k)
  {
    if s != [] {
      var init := s[..|s| - 1];
      var x := s[|s| - 1];
      assert s == init + [x];
      SortByKeyCorrect(init);
      InsertStableSorted(x, SortByKey(init));
      InsertStableMultiset(x, SortByKey(init));
      forall k ensures WithKey(SortByKey(s), k) == WithKey(s, k) {
        InsertStableWithKey(x, SortByKey(init), k);
        WithKeyAppend(init, [x], k);
      }
    }
  }

  lemma {:induction false} InsertStablePayloads<P>(x: (nat, P), s: seq<(nat, P)>)
    ensures multiset(PayloadsOf(InsertStable(x, s))) == multiset(PayloadsOf(s)) + multiset{x.1}
  {
    if s == [] || s[|s| - 1].0 <= x.0 {
      assert PayloadsOf(s + [x]) == PayloadsOf(s) + [x.1];
    } else {
      var init := s[..|s| - 1];
      var y := s[|s| - 1];
      InsertStablePayloads(x, init);
      assert PayloadsOf(InsertStable(x, init) + [y]) == PayloadsOf(InsertStable(x, init)) + [y.1];
      assert PayloadsOf(s) == PayloadsOf(init) + [y.1];
    }
  }

  /** The sort moves payloads but neither adds nor drops any. */
  lemma {:induction false} SortByKeyPayloads<P>(s: seq<(nat, P)>)
    ensures multiset(PayloadsOf(SortByKey(s))) == multiset(PayloadsOf(s))
  {
    if s != [] {
      var init := s[..|s| - 1];
      var x := s[|s| - 1];
      SortByKeyPayloads(init);
      InsertStablePayloads(x, SortByKey(init));
      assert PayloadsOf(s) == PayloadsOf(init) + [x.1];
    }
  }

  function Zip<P>(keys: seq<nat>, values: seq<P>): (r: seq<(nat, P)>)
    requires |keys| == |values|
    ensures |r| == |keys|
    ensures forall i :: 0 <= i < |r| ==> r[i] == (keys[i], values[i])
  {
    seq(|keys|, i requires 0 <= i < |keys| => (keys[i], values[i]))
  }

  function KeysOf<P>(s: seq<(nat, P)>): (r: seq<nat>)
    ensures |r| == |s| && forall i :: 0 <= i < |s| ==> r[i] == s[i].0
  {
    seq(|s|, i requires 0 <= i < |s| => s[i].0)
  }

  function PayloadsOf<P>(s: seq<(nat, P)>): (r: seq<P>)
    ensures |r| == |s| && forall i :: 0 <= i < |s| ==> r[i] == s[i].1
  {
    seq(|s|, i requires 0 <= i < |s| => s[i].1)
  }

  /** `radix_argsort(keys, values, n, bits)`: sorts the first `n` keys
      ascending, carrying each value along with its key; entries from `n` on are
      not touched. A radix sort over `bits` bits only orders by the low `bits`
      bits of each key, so the caller must pass a width that holds every key. */
  function RadixArgsort<P>(keys: seq<nat>, values: seq<P>, n: nat, bits: nat): (r: (seq<nat>, seq<P>))
    requires |keys| == |values| && n <= |keys|
    requires forall i :: 0 <= i < n ==> keys[i] < Pow2(bits)
    ensures |r.0| == |keys| && |r.1| == |values|
    ensures r.0[n..] == keys[n..] && r.1[n..] == values[n..]
    ensures forall i, j :: 0 <= i < j < n ==> r.0[i] <= r.0[j]
    ensures multiset(Zip(r.0[..n], r.1[..n])) == multiset(Zip(keys[..n], values[..n]))
    ensures multiset(r.1[..n]) == multiset(values[..n])
    ensures forall k :: WithKey(Zip(r.0[..n], r.1[..n]), k) == WithKey(Zip(keys[..n], values[..n]), k)
  {
    var sorted := SortByKey(Zip(keys[..n], values[..n]));
    SortByKeyCorrect(Zip(keys[..n], values[..n]));
    SortByKeyPayloads(Zip(keys[..n], values[..n]));
    assert PayloadsOf(Zip(keys[..n], values[..n])) == values[..n];
    var r := (KeysOf(sorted) + keys[n..], PayloadsOf(sorted) + values[n..]);
    assert r.0[..n] == KeysOf(sorted) && r.1[..n] == PayloadsOf(sorted);
    assert Zip(r.0[..n], r.1[..n]) == sorted;
    r
  }

  // ---------------------------------------------------------------------------
  // Inclusive prefix sum

  function Sum(s: seq<nat>): nat {
    if s == [] then 0 else Sum(s[..|s| - 1]) + s[|s| - 1]
  }

  lemma {:induction false} SumAppend(a: seq<nat>, b: seq<nat>)
    ensures Sum(a + b) == Sum(a) + Sum(b)
  {
    if b != [] {
      assert (a + b)[..|a + b| - 1] == a + b[..|b| - 1];
      SumAppend(a, b[..|b| - 1]);
    } else {
      assert a + b == a;
    }
  }

  /** `prefix_sum(counts)`: entry `i` of the result is the sum of the counts up
      to and including `counts[i]`. */
  method PrefixSum(counts: seq<nat>) returns (cum: seq<nat>)
    ensures |cum| == |counts|
    ensures forall i :: 0 <= i < |counts| ==> cum[i] == Sum(counts[..i + 1])
  {
    var out := new nat[|counts|];
    var acc := 0;
    for i := 0 to |counts|
      invariant acc == Sum(counts[..i])
      invariant forall j :: 0 <= j < i ==> out[j] == Sum(counts[..j + 1])
    {
      assert counts[..i + 1][..i] == counts[..i];
      acc := acc + counts[i];
      out[i] := acc;
    }
    cum := out[..];
  }

  /** The last cumulative entry is the total of all counts (what render.rs reads
      back as the intersection count). */
  lemma LastPrefixIsTotal(counts: seq<nat>, cum: seq<nat>)
    requires |counts| > 0 && |cum| == |counts|
    requires forall i :: 0 <= i < |counts| ==> cum[i] == Sum(counts[..i + 1])
    ensures cum[|cum| - 1] == Sum(counts)
  {
    assert counts[..|counts|] == counts;
  }
}
