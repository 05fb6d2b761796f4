/** The channel-pair dictionary of `hom_plot`: every pair of detector channels
    (c1, c2) with c1 < c2, neither of them excluded, gets the next row index of
    the coincidence table, and its tag `"%02d_%02d"` maps to that index. */
module ChannelIndex {
  import opened PyText
  import opened Sequences

  type Pair = (nat, nat)

  /** `c not in exclude_channels`. */
  predicate Allowed(c: int, exclude: seq<int>) { c !in exclude }

  /** The pairs (c1, c2) with c1 < c2 <= hi, both allowed, by increasing c2:
      what one pass of the inner loop finds. */
  function RowPairs(c1: nat, hi: int, exclude: seq<int>): seq<Pair>
    decreases hi - c1
  {
    if hi <= c1 then []
    else RowPairs(c1, hi - 1, exclude) + (if Allowed(c1, exclude) && Allowed(hi, exclude) then [(c1, hi)] else [])
  }

  /** The pairs found while the outer loop runs c1 over 1 .. a. */
  function PairsUpTo(a: int, n: int, exclude: seq<int>): seq<Pair>
    decreases a
  {
    if a <= 0 then [] else PairsUpTo(a - 1, n, exclude) + RowPairs(a, n, exclude)
  }

  /** Every indexed pair of the channels 1 .. n, in index order. */
  function ChannelPairs(n: int, exclude: seq<int>): seq<Pair> {
    PairsUpTo(n, n, exclude)
  }

  /** The number of allowed channels c with lo < c <= hi. */
  function AllowedBetween(lo: int, hi: int, exclude: seq<int>): nat
    decreases hi - lo
  {
    if hi <= lo then 0 else AllowedBetween(lo, hi - 1, exclude) + (if Allowed(hi, exclude) then 1 else 0)
  }

  /** The number of channels among 1 .. n that are not excluded. */
  function AllowedCount(n: int, exclude: seq<int>): nat {
    AllowedBetween(0, n, exclude)
  }

  /** The number of two-element subsets of an x-element set. */
  function Choose2(x: nat): nat {
    if x == 0 then 0 else Choose2(x - 1) + (x - 1)
  }

  /** The tags of the pairs, in order. */
  function Tags(P: seq<Pair>): seq<string> {
    seq(|P|, i requires 0 <= i < |P| => Tag(P[i].0, P[i].1))
  }

  /** A dictionary from each key to its position (a later duplicate wins, as with `dict.update`). */
  function IndexOf<K(==)>(keys: seq<K>): map<K, int> {
    if keys == [] then map[] else IndexOf(keys[..|keys| - 1])[keys[|keys| - 1] := |keys| - 1]
  }

  /** A dictionary from each position to its key. */
  function KeyAt<K(==)>(keys: seq<K>): map<int, K> {
    if keys == [] then map[] else KeyAt(keys[..|keys| - 1])[|keys| - 1 := keys[|keys| - 1]]
  }

  /** `channel_dict`: each pair's tag maps to the position of the pair. */
  function DictOf(P: seq<Pair>): map<string, int> { IndexOf(Tags(P)) }

  /** `inv_channel_dict`: each position maps to the tag of its pair. */
  function InvDictOf(P: seq<Pair>): map<int, string> { KeyAt(Tags(P)) }

  /** Lexicographic order on pairs, strict. */
  predicate Before(p: Pair, q: Pair) {
    p.0 < q.0 || (p.0 == q.0 && p.1 < q.1)
  }

  predicate StrictlySorted(P: seq<Pair>) {
    forall i, j :: 0 <= i < j < |P| ==> Before(P[i], P[j])
  }

  // ---------------------------------------------------------------------------
  // Which pairs get an index.

  lemma {:induction false} RowPairsMembers(c1: nat, hi: int, exclude: seq<int>, p: Pair)
    ensures p in RowPairs(c1, hi, exclude)
        <==> p.0 == c1 && c1 < p.1 <= hi && Allowed(c1, exclude) && Allowed(p.1, exclude)
    decreases hi - c1
  {
    if hi > c1 { RowPairsMembers(c1, hi - 1, exclude, p); }
  }

  lemma {:induction false} PairsUpToMembers(a: int, n: int, exclude: seq<int>, p: Pair)
    ensures p in PairsUpTo(a, n, exclude)
        <==> 1 <= p.0 <= a && p.0 < p.1 <= n && Allowed(p.0, exclude) && Allowed(p.1, exclude)
    decreases a
  {
    if a > 0 {
      PairsUpToMembers(a - 1, n, exclude, p);
      RowPairsMembers(a, n, exclude, p);
    }
  }

  /** A pair gets an index exactly when 1 <= c1 < c2 <= n and neither channel is excluded. */
  lemma ChannelPairsMembers(n: int, exclude: seq<int>, p: Pair)
    ensures p in ChannelPairs(n, exclude)
        <==> 1 <= p.0 < p.1 <= n && Allowed(p.0, exclude) && Allowed(p.1, exclude)
  {
    PairsUpToMembers(n, n, exclude, p);
  }

  // ---------------------------------------------------------------------------
  // The order of the indices.

  lemma SortedConcat(P: seq<Pair>, Q: seq<Pair>)
    requires StrictlySorted(P) && StrictlySorted(Q)
    requires forall i, j :: 0 <= i < |P| && 0 <= j < |Q| ==> Before(P[i], Q[j])
    ensures StrictlySorted(P + Q)
  {
    var R := P + Q;
    forall i, j | 0 <= i < j < |R| ensures Before(R[i], R[j]) {
      if j < |P| {
        assert R[i] == P[i] && R[j] == P[j];
      } else if i >= |P| {
        assert R[i] == Q[i - |P|] && R[j] == Q[j - |P|];
      } else {
        assert R[i] == P[i] && R[j] == Q[j - |P|];
      }
    }
  }

  lemma {:induction false} RowPairsSorted(c1: nat, hi: int, exclude: seq<int>)
    ensures StrictlySorted(RowPairs(c1, hi, exclude))
    decreases hi - c1
  {
    if hi > c1 {
      var P := RowPairs(c1, hi - 1, exclude);
      RowPairsSorted(c1, hi - 1, exclude);
      forall i | 0 <= i < |P| ensures Before(P[i], (c1, hi)) {
        RowPairsMembers(c1, hi - 1, exclude, P[i]);
      }
      SortedConcat(P, if Allowed(c1, exclude) && Allowed(hi, exclude) then [(c1, hi)] else []);
    }
  }

  lemma {:induction false} PairsUpToSorted(a: int, n: int, exclude: seq<int>)
    ensures StrictlySorted(PairsUpTo(a, n, exclude))
    decreases a
  {
    if a > 0 {
      var P, Q := PairsUpTo(a - 1, n, exclude), RowPairs(a, n, exclude);
      PairsUpToSorted(a - 1, n, exclude);
      RowPairsSorted(a, n, exclude);
      forall i, j | 0 <= i < |P| && 0 <= j < |Q| ensures Before(P[i], Q[j]) {
        EarlierRowBefore(a, n, exclude, P[i], Q[j]);
      }
      SortedConcat(P, Q);
    }
  }

  /** A pair of an earlier pass of the outer loop comes before every pair of pass `a`. */
  lemma EarlierRowBefore(a: int, n: int, exclude: seq<int>, p: Pair, q: Pair)
    requires a > 0 && p in PairsUpTo(a - 1, n, exclude) && q in RowPairs(a, n, exclude)
    ensures Before(p, q)
  {
    PairsUpToMembers(a - 1, n, exclude, p);
    RowPairsMembers(a, n, exclude, q);
  }

  /** Indices follow the lexicographic order of (c1, c2). */
  lemma ChannelPairsSorted(n: int, exclude: seq<int>)
    ensures StrictlySorted(ChannelPairs(n, exclude))
  {
    PairsUpToSorted(n, n, exclude);
  }

  /** Sorted pairs are different pairs, so their tags differ. */
  lemma SortedTagsDistinct(P: seq<Pair>)
    requires StrictlySorted(P)
    ensures Distinct(Tags(P))
  {
    forall i, j | 0 <= i < j < |P| ensures Tags(P)[i] != Tags(P)[j] {
      if Tags(P)[i] == Tags(P)[j] {
        TagInjective(P[i].0, P[i].1, P[j].0, P[j].1);
        assert false;
      }
    }
  }

  // ---------------------------------------------------------------------------
  // How many indices there are.

  lemma {:induction false} RowPairsCount(c1: nat, hi: int, exclude: seq<int>)
    ensures |RowPairs(c1, hi, exclude)| == if Allowed(c1, exclude) then AllowedBetween(c1, hi, exclude) else 0
    decreases hi - c1
  {
    if hi > c1 { RowPairsCount(c1, hi - 1, exclude); }
  }

  lemma {:induction false} AllowedBetweenLow(a: int, n: int, exclude: seq<int>)
    requires a <= n
    ensures AllowedBetween(a - 1, n, exclude) == AllowedBetween(a, n, exclude) + (if Allowed(a, exclude) then 1 else 0)
    decreases n - a
  {
    if n > a { AllowedBetweenLow(a, n - 1, exclude); }
  }

  lemma Choose2Step(x: nat)
    ensures Choose2(x + 1) == Choose2(x) + x
  {
  }

  lemma {:induction false} PairsUpToCount(a: nat, n: int, exclude: seq<int>)
    requires a <= n
    ensures |PairsUpTo(a, n, exclude)| + Choose2(AllowedBetween(a, n, exclude)) == Choose2(AllowedCount(n, exclude))
  {
    if a > 0 {
      var x := AllowedBetween(a, n, exclude);
      PairsUpToCount(a - 1, n, exclude);
      RowPairsCount(a, n, exclude);
      AllowedBetweenLow(a, n, exclude);
      Choose2Step(x);
      assert |PairsUpTo(a, n, exclude)| == |PairsUpTo(a - 1, n, exclude)| + |RowPairs(a, n, exclude)|;
      if Allowed(a, exclude) {
        assert AllowedBetween(a - 1, n, exclude) == x + 1;
      } else {
        assert AllowedBetween(a - 1, n, exclude) == x;
      }
    }
  }

  /** With n' channels left after the exclusions, C(n', 2) pairs get an index. */
  lemma ChannelPairsCount(n: int, exclude: seq<int>)
    ensures |ChannelPairs(n, exclude)| == Choose2(AllowedCount(n, exclude))
  {
    if n >= 0 {
      PairsUpToCount(n, n, exclude);
    }
  }

  lemma {:induction false} Choose2Closed(x: nat)
    ensures 2 * Choose2(x) == x * (x - 1)
  {
    if x > 0 {
      Choose2Closed(x - 1);
      assert x * (x - 1) == (x - 1) * (x - 2) + 2 * (x - 1);
    }
  }

  lemma {:induction false} AllowedBetweenBound(lo: int, hi: int, exclude: seq<int>)
    requires lo <= hi
    ensures AllowedBetween(lo, hi, exclude) <= hi - lo
    decreases hi - lo
  {
    if hi > lo { AllowedBetweenBound(lo, hi - 1, exclude); }
  }

  /** The table has n*(n-1) rows: always enough for the C(n', 2) pairs. */
  lemma ChannelPairsFit(n: int, exclude: seq<int>)
    ensures |ChannelPairs(n, exclude)| <= n * (n - 1)
  {
    ChannelPairsCount(n, exclude);
    var c := AllowedCount(n, exclude);
    if n <= 0 {
      assert c == 0;
      assert n * (n - 1) == (-n) * (1 - n);
    } else {
      AllowedBetweenBound(0, n, exclude);
      Choose2Closed(c);
      if c > 0 {
        MulMonotone(c, n, c - 1);
        MulMonotone(c - 1, n - 1, n);
        assert (c - 1) * n == n * (c - 1) && (n - 1) * n == n * (n - 1);
      }
    }
  }

  lemma MulMonotone(a: int, b: int, k: int)
    requires a <= b && 0 <= k
    ensures a * k <= b * k
  {
    assert b * k - a * k == (b - a) * k;
  }

  // ---------------------------------------------------------------------------
  // The two dictionaries.

  lemma {:induction false} IndexOfMembers<K>(keys: seq<K>)
    requires Distinct(keys)
    ensures forall i :: 0 <= i < |keys| ==> keys[i] in IndexOf(keys) && IndexOf(keys)[keys[i]] == i
    ensures forall k :: k in IndexOf(keys) ==> 0 <= IndexOf(keys)[k] < |keys| && keys[IndexOf(keys)[k]] == k
  {
    if keys != [] {
      var I := keys[..|keys| - 1];
      assert Distinct(I) by {
        forall i, j | 0 <= i < j < |I| ensures I[i] != I[j] {
          assert I[i] == keys[i] && I[j] == keys[j];
        }
      }
      IndexOfMembers(I);
      forall i | 0 <= i < |keys| ensures keys[i] in IndexOf(keys) && IndexOf(keys)[keys[i]] == i {
        if i < |I| {
          assert I[i] == keys[i];
        }
      }
      forall k | k in IndexOf(keys) ensures 0 <= IndexOf(keys)[k] < |keys| && keys[IndexOf(keys)[k]] == k {
        if k != keys[|keys| - 1] {
          assert I[IndexOf(I)[k]] == keys[IndexOf(I)[k]];
        }
      }
    }
  }

  lemma {:induction false} KeyAtMembers<K>(keys: seq<K>)
    ensures forall i :: i in KeyAt(keys) <==> 0 <= i < |keys|
    ensures forall i :: 0 <= i < |keys| ==> KeyAt(keys)[i] == keys[i]
  {
    if keys != [] {
      var I := keys[..|keys| - 1];
      KeyAtMembers(I);
      assert forall i :: 0 <= i < |I| ==> I[i] == keys[i];
    }
  }

  /** A key-to-position dictionary and a position-to-key dictionary built from
      the same distinct keys undo each other. */
  lemma IndexKeyInverse<K>(keys: seq<K>)
    requires Distinct(keys)
    ensures forall k :: k in IndexOf(keys) ==> IndexOf(keys)[k] in KeyAt(keys) && KeyAt(keys)[IndexOf(keys)[k]] == k
    ensures forall i :: i in KeyAt(keys) ==> KeyAt(keys)[i] in IndexOf(keys) && IndexOf(keys)[KeyAt(keys)[i]] == i
  {
    IndexOfMembers(keys);
    KeyAtMembers(keys);
  }

  lemma TagsAppend(P: seq<Pair>, p: Pair)
    ensures Tags(P + [p]) == Tags(P) + [Tag(p.0, p.1)]
  {
    TagsConcat(P, [p]);
  }

  lemma IndexOfAppend<K>(keys: seq<K>, k: K)
    ensures IndexOf(keys + [k]) == IndexOf(keys)[k := |keys|]
    ensures KeyAt(keys + [k]) == KeyAt(keys)[|keys| := k]
  {
    assert (keys + [k])[..|keys|] == keys;
  }

  /** Everything the two loops promise, stated of the dictionaries they build. */
  lemma ChannelIndexFacts(n: int, exclude: seq<int>, channelDict: map<string, int>, invChannelDict: map<int, string>, count: nat)
    requires channelDict == DictOf(ChannelPairs(n, exclude))
    requires invChannelDict == InvDictOf(ChannelPairs(n, exclude))
    requires count == |ChannelPairs(n, exclude)|
    ensures count == Choose2(AllowedCount(n, exclude)) && count <= n * (n - 1)
    ensures forall i :: i in invChannelDict <==> 0 <= i < count
    ensures forall t :: t in channelDict ==> 0 <= channelDict[t] < count
    ensures forall t :: t in channelDict ==> channelDict[t] in invChannelDict && invChannelDict[channelDict[t]] == t
    ensures forall i :: i in invChannelDict ==> invChannelDict[i] in channelDict && channelDict[invChannelDict[i]] == i
  {
    var P := ChannelPairs(n, exclude);
    ChannelPairsSorted(n, exclude);
    SortedTagsDistinct(P);
    IndexOfMembers(Tags(P));
    KeyAtMembers(Tags(P));
    IndexKeyInverse(Tags(P));
    ChannelPairsCount(n, exclude);
    ChannelPairsFit(n, exclude);
  }

  lemma TagsConcat(P: seq<Pair>, Q: seq<Pair>)
    ensures Tags(P + Q) == Tags(P) + Tags(Q)
  {
    var L, R := Tags(P + Q), Tags(P) + Tags(Q);
    assert |L| == |R|;
    forall i | 0 <= i < |L| ensures L[i] == R[i] {
      if i < |P| {
        assert (P + Q)[i] == P[i];
      } else {
        assert (P + Q)[i] == Q[i - |P|];
      }
    }
  }

  /** One pass of the inner loop (lines 20-29): the partners c2 of channel c1,
      each allowed pair getting the next index after the tags already indexed. */
  method IndexRow(c1: nat, channelsNumber: int, exclude: seq<int>, ghost before: seq<string>,
                  dict: map<string, int>, invDict: map<int, string>, start: nat)
    returns (channelDict: map<string, int>, invChannelDict: map<int, string>, count: nat)
    requires dict == IndexOf(before) && invDict == KeyAt(before) && start == |before|
    ensures channelDict == IndexOf(before + Tags(RowPairs(c1, channelsNumber, exclude)))
    ensures invChannelDict == KeyAt(before + Tags(RowPairs(c1, channelsNumber, exclude)))
    ensures count == |before + Tags(RowPairs(c1, channelsNumber, exclude))|
  {
    channelDict, invChannelDict, count := dict, invDict, start;
    ghost var tags := before;
    RowPairsEmpty(c1, exclude, before);
    var c2 := c1 + 1;
    ghost var last := c1;
    while c2 < channelsNumber + 1
      invariant c1 + 1 <= c2 && (c2 <= channelsNumber + 1 || c2 == c1 + 1) && last == c2 - 1
      invariant tags == before + Tags(RowPairs(c1, last, exclude))
      invariant channelDict == IndexOf(tags) && invChannelDict == KeyAt(tags) && count == |tags|
      decreases channelsNumber + 1 - c2
    {
      channelDict, invChannelDict, count, tags := IndexPartner(c1, c2, exclude, before, tags, channelDict, invChannelDict, count);
      last := c2;
      c2 := c2 + 1;
    }
    RowPairsEnd(c1, c2, channelsNumber, exclude);
  }

  lemma RowPairsEmpty(c1: nat, exclude: seq<int>, before: seq<string>)
    ensures before + Tags(RowPairs(c1, c1, exclude)) == before
  {
    assert RowPairs(c1, c1, exclude) == [];
  }

  /** Where the inner loop stops: past n, or at once when c1 >= n. */
  lemma RowPairsEnd(c1: nat, c2: int, n: int, exclude: seq<int>)
    requires c1 + 1 <= c2 && (c2 <= n + 1 || c2 == c1 + 1) && !(c2 < n + 1)
    ensures RowPairs(c1, c2 - 1, exclude) == RowPairs(c1, n, exclude)
  {
    if c2 - 1 != n {
      assert n <= c1;
    }
  }

  /** One iteration of the inner loop (lines 21-29): the pair (c1, c2) is indexed
      when neither channel is excluded. */
  method IndexPartner(c1: nat, c2: int, exclude: seq<int>, ghost before: seq<string>, ghost tags: seq<string>,
                      dict: map<string, int>, invDict: map<int, string>, count: nat)
    returns (channelDict: map<string, int>, invChannelDict: map<int, string>, count': nat, ghost tags': seq<string>)
    requires c1 < c2 && tags == before + Tags(RowPairs(c1, c2 - 1, exclude))
    requires dict == IndexOf(tags) && invDict == KeyAt(tags) && count == |tags|
    ensures tags' == before + Tags(RowPairs(c1, c2, exclude))
    ensures channelDict == IndexOf(tags') && invChannelDict == KeyAt(tags') && count' == |tags'|
  {
    IndexRowStep(c1, c2, exclude, before, tags);
    channelDict, invChannelDict, count', tags' := dict, invDict, count, tags;
    if c1 !in exclude && c2 !in exclude {
      var tag := Tag(c1, c2);
      channelDict, invChannelDict, count' := Register(tags, dict, invDict, count, tag);
      tags' := tags + [tag];
    }
  }

  /** Lines 23-24 and 29: the tag gets the next index in both dictionaries. */
  method Register(ghost tags: seq<string>, dict: map<string, int>, invDict: map<int, string>, count: nat, tag: string)
    returns (channelDict: map<string, int>, invChannelDict: map<int, string>, count': nat)
    requires dict == IndexOf(tags) && invDict == KeyAt(tags) && count == |tags|
    ensures channelDict == IndexOf(tags + [tag]) && invChannelDict == KeyAt(tags + [tag]) && count' == |tags + [tag]|
  {
    IndexOfAppend(tags, tag);
    channelDict := dict[tag := count];
    invChannelDict := invDict[count := tag];
    count' := count + 1;
  }

  /** What one more partner c2 adds to the tags indexed so far. */
  lemma IndexRowStep(c1: nat, c2: int, exclude: seq<int>, before: seq<string>, tags: seq<string>)
    requires c1 < c2 && tags == before + Tags(RowPairs(c1, c2 - 1, exclude))
    ensures before + Tags(RowPairs(c1, c2, exclude)) == if c1 !in exclude && c2 !in exclude then tags + [Tag(c1, c2)] else tags
  {
    var row := RowPairs(c1, c2 - 1, exclude);
    RowPairsStep(c1, c2, exclude);
    if c1 !in exclude && c2 !in exclude {
      TagsAppend(row, (c1, c2));
      assert RowPairs(c1, c2, exclude) == row + [(c1, c2)];
    } else {
      assert RowPairs(c1, c2, exclude) == row + [] == row;
    }
  }

  /** One more step of the inner loop. */
  lemma RowPairsStep(c1: nat, c2: int, exclude: seq<int>)
    requires c1 < c2
    ensures RowPairs(c1, c2, exclude) == RowPairs(c1, c2 - 1, exclude) + (if Allowed(c1, exclude) && Allowed(c2, exclude) then [(c1, c2)] else [])
  {
  }

  /** What one more pass of the outer loop adds to the tags indexed so far. */
  lemma PairsUpToStep(c1: int, n: int, exclude: seq<int>, tags: seq<string>)
    requires 1 <= c1 && tags == Tags(PairsUpTo(c1 - 1, n, exclude))
    ensures tags + Tags(RowPairs(c1, n, exclude)) == Tags(PairsUpTo(c1, n, exclude))
  {
    TagsConcat(PairsUpTo(c1 - 1, n, exclude), RowPairs(c1, n, exclude));
  }

  /** The dictionaries and the counter once the outer loop has run c1 over 1 .. a. */
  ghost predicate IndexedUpTo(a: int, n: int, exclude: seq<int>,
                              dict: map<string, int>, invDict: map<int, string>, count: int)
  {
    dict == DictOf(PairsUpTo(a, n, exclude)) && invDict == InvDictOf(PairsUpTo(a, n, exclude))
    && count == |PairsUpTo(a, n, exclude)|
  }

  /** One pass of the outer loop (lines 19-29) extends the dictionaries from the
      pairs of rows 1 .. c1 - 1 to those of rows 1 .. c1. */
  method IndexNextRow(c1: nat, channelsNumber: int, exclude: seq<int>,
                      dict: map<string, int>, invDict: map<int, string>, start: nat)
    returns (channelDict: map<string, int>, invChannelDict: map<int, string>, count: nat)
    requires 1 <= c1 && IndexedUpTo(c1 - 1, channelsNumber, exclude, dict, invDict, start)
    ensures IndexedUpTo(c1, channelsNumber, exclude, channelDict, invChannelDict, count)
  {
    ghost var before := Tags(PairsUpTo(c1 - 1, channelsNumber, exclude));
    channelDict, invChannelDict, count := IndexRow(c1, channelsNumber, exclude, before, dict, invDict, start);
    PairsUpToStep(c1, channelsNumber, exclude, before);
  }

  /** Lines 14-29: the empty dictionaries, then the loops; what they build is
      everything `ChannelIndexFacts` states. */
  method BuildChannelIndex(channelsNumber: int, exclude: seq<int>)
    returns (channelDict: map<string, int>, invChannelDict: map<int, string>, count: nat)
    ensures channelDict == DictOf(ChannelPairs(channelsNumber, exclude))
    ensures invChannelDict == InvDictOf(ChannelPairs(channelsNumber, exclude))
    ensures count == |ChannelPairs(channelsNumber, exclude)| == Choose2(AllowedCount(channelsNumber, exclude))
    ensures count <= channelsNumber * (channelsNumber - 1)
    ensures forall i :: i in invChannelDict <==> 0 <= i < count
    ensures forall t :: t in channelDict ==> 0 <= channelDict[t] < count
    ensures forall t :: t in channelDict ==> channelDict[t] in invChannelDict && invChannelDict[channelDict[t]] == t
    ensures forall i :: i in invChannelDict ==> invChannelDict[i] in channelDict && channelDict[invChannelDict[i]] == i
  {
    channelDict, invChannelDict, count := IndexPairs(channelsNumber, exclude);
    ChannelIndexFacts(channelsNumber, exclude, channelDict, invChannelDict, count);
  }

  /** The loops at lines 18-29: indices 0, 1, 2, ... in the order the pairs are met. */
  method IndexPairs(channelsNumber: int, exclude: seq<int>)
    returns (channelDict: map<string, int>, invChannelDict: map<int, string>, count: nat)
    ensures channelDict == DictOf(ChannelPairs(channelsNumber, exclude))
    ensures invChannelDict == InvDictOf(ChannelPairs(channelsNumber, exclude))
    ensures count == |ChannelPairs(channelsNumber, exclude)|
  {
    channelDict, invChannelDict := map[], map[];
    count := 0;
    NothingIndexed(channelsNumber, exclude);
    var c1 := 1;
    ghost var done := 0;
    while c1 < channelsNumber + 1
      invariant 1 <= c1 && (c1 <= channelsNumber + 1 || c1 == 1) && done == c1 - 1
      invariant IndexedUpTo(done, channelsNumber, exclude, channelDict, invChannelDict, count)
      decreases channelsNumber + 1 - c1
    {
      channelDict, invChannelDict, count := IndexNextRow(c1, channelsNumber, exclude, channelDict, invChannelDict, count);
      done := c1;
      c1 := c1 + 1;
    }
    LoopsDone(c1, channelsNumber, exclude, channelDict, invChannelDict, count);
  }

  /** Before the outer loop, no pair has been indexed. */
  lemma NothingIndexed(n: int, exclude: seq<int>)
    ensures IndexedUpTo(0, n, exclude, map[], map[], 0)
  {
    assert PairsUpTo(0, n, exclude) == [];
    assert Tags([]) == [];
  }

  /** When the outer loop ends, every pass has been made. */
  lemma LoopsDone(c1: int, n: int, exclude: seq<int>,
                   dict: map<string, int>, invDict: map<int, string>, count: int)
    requires 1 <= c1 && (c1 <= n + 1 || c1 == 1) && !(c1 < n + 1)
    requires IndexedUpTo(c1 - 1, n, exclude, dict, invDict, count)
    ensures dict == DictOf(ChannelPairs(n, exclude)) && invDict == InvDictOf(ChannelPairs(n, exclude))
    ensures count == |ChannelPairs(n, exclude)|
  {
    assert c1 - 1 == n || n <= 0;
    assert PairsUpTo(c1 - 1, n, exclude) == ChannelPairs(n, exclude);
  }
}
