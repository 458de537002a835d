/**
 * BlockDistributionCounter: counts how often each block occurs over the
 * positions it is applied to. One Countable object per distinct block is
 * shared between a lookup map and the distribution list.
 */
module BlockDistribution {

  /** A block and how often it has been counted (com.sk89q.worldedit.util.Countable). */
  class Countable<B> {
    const id: B
    var amount: int

    constructor (id: B, amount: int)
      ensures this.id == id && this.amount == amount
    {
      this.id := id;
      this.amount := amount;
    }

    method Increment()
      modifies this
      ensures amount == old(amount) + 1
    {
      amount := amount + 1;
    }
  }

  /** The sum of a sequence of counts. */
  function Sum(s: seq<int>): int
    decreases |s|
  {
    if s == [] then 0 else s[0] + Sum(s[1..])
  }

  /** Raising one count by d raises the sum by d. */
  lemma {:induction false} SumUpdate(s: seq<int>, k: nat, d: int)
    requires k < |s|
    ensures Sum(s[k := s[k] + d]) == Sum(s) + d
    decreases |s|
  {
    if k > 0 {
      assert s[k := s[k] + d][1..] == s[1..][k - 1 := s[1..][k - 1] + d];
      SumUpdate(s[1..], k - 1, d);
    }
  }

  /** No element occurs twice. */
  ghost predicate Distinct<T>(s: seq<T>)
  {
    forall i, j :: 0 <= i < j < |s| ==> s[i] != s[j]
  }

  /** The multiplicities in m of the keys ks, in order. */
  function CountsOf<T>(ks: seq<T>, m: multiset<T>): (r: seq<int>)
    ensures |r| == |ks| && forall i :: 0 <= i < |ks| ==> r[i] == m[ks[i]]
  {
    seq(|ks|, i requires 0 <= i < |ks| => m[ks[i]])
  }

  /** A sequence of zeros sums to zero. */
  lemma {:induction false} SumZeros(s: seq<int>)
    requires forall i :: 0 <= i < |s| ==> s[i] == 0
    ensures Sum(s) == 0
    decreases |s|
  {
    if s != [] {
      SumZeros(s[1..]);
    }
  }

  /**
   * Counting every distinct key once: when the keys are distinct and
   * every element of s is among them, their multiplicities in s add up to
   * the length of s.
   */
  lemma {:induction false} CountsCover<T>(ks: seq<T>, s: seq<T>)
    requires Distinct(ks)
    requires forall j :: 0 <= j < |s| ==> s[j] in ks
    ensures Sum(CountsOf(ks, multiset(s))) == |s|
    decreases |s|
  {
    if s == [] {
      SumZeros(CountsOf(ks, multiset(s)));
    } else {
      var init := s[..|s| - 1];
      var x := s[|s| - 1];
      assert s == init + [x];
      CountsCover(ks, init);
      var k :| 0 <= k < |ks| && ks[k] == x;
      var before := CountsOf(ks, multiset(init));
      var after := CountsOf(ks, multiset(s));
      assert multiset(s) == multiset(init) + multiset{x};
      forall i | 0 <= i < |ks|
        ensures after[i] == before[k := before[k] + 1][i]
      {
        if i != k {
          assert ks[i] != x;
        }
      }
      assert after == before[k := before[k] + 1];
      SumUpdate(before, k, 1);
    }
  }

  /** s backwards. */
  function Reversed<T>(s: seq<T>): (r: seq<T>)
    ensures |r| == |s|
    ensures forall i :: 0 <= i < |s| ==> r[i] == s[|s| - 1 - i]
    decreases |s|
  {
    if s == [] then [] else Reversed(s[1..]) + [s[0]]
  }

  /** Reversing rearranges: the same elements, as often each. */
  lemma {:induction false} ReversedIsPermutation<T>(s: seq<T>)
    ensures multiset(Reversed(s)) == multiset(s)
    decreases |s|
  {
    if s != [] {
      ReversedIsPermutation(s[1..]);
      assert s == [s[0]] + s[1..];
    }
  }

  /** A sequence is distinct exactly when no element occurs in it more than once. */
  lemma {:induction false} DistinctByMultiset<T>(s: seq<T>)
    ensures Distinct(s) <==> forall x :: multiset(s)[x] <= 1
    decreases |s|
  {
    if s != [] {
      DistinctByMultiset(s[1..]);
      assert s == [s[0]] + s[1..];
      if Distinct(s) {
        assert Distinct(s[1..]) by {
          forall i, j | 0 <= i < j < |s[1..]|
            ensures s[1..][i] != s[1..][j]
          {
            assert s[i + 1] != s[j + 1];
          }
        }
        assert s[0] !in s[1..] by {
          forall i | 0 <= i < |s[1..]|
            ensures s[1..][i] != s[0]
          {
            assert s[i + 1] != s[0];
          }
        }
      } else {
        var i, j :| 0 <= i < j < |s| && s[i] == s[j];
        if i == 0 {
          assert s[1..][j - 1] == s[0];
          assert s[0] in multiset(s[1..]);
          assert multiset(s)[s[0]] > 1;
        } else {
          assert s[1..][i - 1] == s[1..][j - 1];
          assert !Distinct(s[1..]);
          var x :| multiset(s[1..])[x] > 1;
          assert multiset(s)[x] > 1;
        }
      }
    }
  }

  /**
   * The counter over an extent (`extent` stands for Extent.getBlock and
   * `toFuzzy` for BlockState.toFuzzy). `blocks` is the Java field `map`.
   */
  class BlockDistributionCounter<P, B(==)> {
    const extent: P -> B
    const fuzzy: bool
    const toFuzzy: B -> B

    var distribution: seq<Countable<B>>
    var blocks: map<B, Countable<B>>
    /** The blocks counted so far, after fuzzing, one per apply. */
    ghost var seen: seq<B>

    ghost function Counters(): set<Countable<B>>
      reads this
    {
      set c | c in distribution
    }

    /**
     * The map and the list hold the same entries, each block once, and
     * each entry counts how often its block has been seen.
     */
    ghost predicate Valid()
      reads this, Counters()
    {
      && Distinct(distribution)
      && (forall i :: 0 <= i < |distribution| ==>
            distribution[i].id in blocks && blocks[distribution[i].id] == distribution[i])
      && (forall b :: b in blocks ==> blocks[b] in distribution && blocks[b].id == b)
      && (forall b :: b in blocks ==> blocks[b].amount == multiset(seen)[b])
      && (forall b :: b in multiset(seen) ==> b in blocks)
    }

    /** The blocks of the entries, in list order. */
    ghost function Ids(): seq<B>
      reads this
    {
      seq(|distribution|, i requires 0 <= i < |distribution| reads this => distribution[i].id)
    }

    /** The counts of the entries, in list order. */
    ghost function Amounts(): seq<int>
      reads this, Counters()
    {
      seq(|distribution|, i requires 0 <= i < |distribution| reads this, Counters() => distribution[i].amount)
    }

    /** The block an apply counts: the one at the position, fuzzed when asked to be. */
    function Key(b: B): B
    {
      if fuzzy then toFuzzy(b) else b
    }

    /** Lines 44-47: a counter with nothing counted. */
    constructor (extent: P -> B, fuzzy: bool, toFuzzy: B -> B)
      ensures this.extent == extent && this.fuzzy == fuzzy && this.toFuzzy == toFuzzy
      ensures distribution == [] && blocks == map[] && seen == []
      ensures Valid()
    {
      this.extent := extent;
      this.fuzzy := fuzzy;
      this.toFuzzy := toFuzzy;
      distribution := [];
      blocks := map[];
      seen := [];
    }

    /**
     * apply(position), lines 50-65: count the block at the position. An
     * existing entry goes up by one; an unseen block gets a new entry with
     * count 1 at the end of the list. Always true.
     */
    method Apply(position: P) returns (r: bool)
      requires Valid()
      modifies this, Counters()
      ensures Valid() && r
      ensures var key := Key(extent(position));
              && seen == old(seen) + [key]
              && (key in old(blocks) ==>
                    && blocks == old(blocks) && distribution == old(distribution)
                    && blocks[key].amount == old(blocks[key].amount) + 1)
              && (key !in old(blocks) ==>
                    && |distribution| == |old(distribution)| + 1
                    && distribution[..|old(distribution)|] == old(distribution)
                    && fresh(distribution[|old(distribution)|])
                    && blocks == old(blocks)[key := distribution[|old(distribution)|]]
                    && distribution[|old(distribution)|].amount == 1)
      ensures forall c :: c in old(distribution) && c.id != Key(extent(position)) ==> c.amount == old(c.amount)
    {
      var blk := extent(position);
      if fuzzy {
        blk := toFuzzy(blk);
      }
      if blk in blocks {
        CountAgain(blk);
      } else {
        CountFirst(blk);
      }
      return true;
    }

    /** Line 57: the entry of a block seen before goes up by one. */
    method CountAgain(blk: B)
      requires Valid() && blk in blocks
      modifies this, blocks[blk]
      ensures Valid()
      ensures seen == old(seen) + [blk] && blocks == old(blocks) && distribution == old(distribution)
      ensures blocks[blk].amount == old(blocks[blk].amount) + 1
      ensures forall c :: c in distribution && c.id != blk ==> c.amount == old(c.amount)
    {
      var c := blocks[blk];
      c.Increment();
      seen := seen + [blk];
    }

    /** Lines 59-61: a new entry with count 1, in the map and at the end of the list. */
    method CountFirst(blk: B)
      requires Valid() && blk !in blocks
      modifies this
      ensures Valid()
      ensures seen == old(seen) + [blk]
      ensures |distribution| == |old(distribution)| + 1
      ensures distribution[..|old(distribution)|] == old(distribution)
      ensures fresh(distribution[|old(distribution)|])
      ensures blocks == old(blocks)[blk := distribution[|old(distribution)|]]
      ensures distribution[|old(distribution)|].amount == 1
    {
      var c := new Countable(blk, 1);
      blocks := blocks[blk := c];
      distribution := distribution + [c];
      seen := seen + [blk];
      assert distribution[..|old(distribution)|] == old(distribution);
      forall i | 0 <= i < |distribution|
        ensures distribution[i].id in blocks && blocks[distribution[i].id] == distribution[i]
      {
        if i < |old(distribution)| {
          assert distribution[i] == old(distribution)[i];
          assert distribution[i].id in old(blocks);
        }
      }
      forall b | b in blocks
        ensures blocks[b] in distribution && blocks[b].id == b
      {
        if b != blk {
          assert blocks[b] in old(distribution);
        }
      }
      forall i, j | 0 <= i < j < |distribution|
        ensures distribution[i] != distribution[j]
      {
        if j == |old(distribution)| {
          assert distribution[i] in old(distribution);
        }
      }
      assert multiset(seen) == multiset(old(seen)) + multiset{blk};
      forall b | b in blocks
        ensures blocks[b].amount == multiset(seen)[b]
      {
        if b == blk {
          assert blk !in multiset(old(seen));
        }
      }
    }

    /**
     * The sum of all counts is the number of blocks counted, which is
     * the number of apply calls.
     */
    lemma TotalIsApplyCount()
      requires Valid()
      ensures Sum(Amounts()) == |seen|
    {
      var ks := Ids();
      var m := multiset(seen);
      forall i, j | 0 <= i < j < |ks|
        ensures ks[i] != ks[j]
      {
        assert blocks[ks[i]] == distribution[i] && blocks[ks[j]] == distribution[j];
      }
      forall j | 0 <= j < |seen|
        ensures seen[j] in ks
      {
        var x := seen[j];
        assert x in m;
        var i :| 0 <= i < |distribution| && distribution[i] == blocks[x];
        assert ks[i] == x;
      }
      CountsCover(ks, seen);
      assert Amounts() == CountsOf(ks, m);
    }

    /**
     * getDistribution(), lines 72-76: Collections.sort arranges the list
     * (`sorted` is the arrangement it produces, by Countable.compareTo)
     * and Collections.reverse turns it around in place; the same list is
     * returned.
     */
    method GetDistribution(sorted: seq<Countable<B>>) returns (r: seq<Countable<B>>)
      requires Valid()
      requires multiset(sorted) == multiset(distribution)
      modifies this
      ensures Valid()
      ensures distribution == Reversed(sorted) && r == distribution
      ensures multiset(distribution) == multiset(old(distribution))
      ensures blocks == old(blocks) && seen == old(seen)
      ensures forall c :: c in distribution ==> c.amount == old(c.amount)
    {
      distribution := sorted;
      Reverse();
      ReversedIsPermutation(sorted);
      assert multiset(distribution) == multiset(old(distribution));
      forall i | 0 <= i < |distribution|
        ensures distribution[i].id in blocks && blocks[distribution[i].id] == distribution[i]
      {
        assert distribution[i] in multiset(old(distribution));
      }
      forall b | b in blocks
        ensures blocks[b] in distribution
      {
        assert blocks[b] in old(distribution);
        assert blocks[b] in multiset(distribution);
      }
      DistinctByMultiset(old(distribution));
      DistinctByMultiset(distribution);
      r := distribution;
    }
  
    /** Collections.reverse: swap the ends of the list, pair by pair, towards its middle. */
    method Reverse()
      modifies this
      ensures distribution == Reversed(old(distribution))
      ensures blocks == old(blocks) && seen == old(seen)
    {
      ghost var before := distribution;
      var n := |distribution|;
      var i := 0;
      while i < n / 2
        invariant 0 <= i <= n / 2 && |distribution| == n
        invariant blocks == old(blocks) && seen == old(seen)
        invariant forall k :: 0 <= k < i ==> distribution[k] == before[n - 1 - k] && distribution[n - 1 - k] == before[k]
        invariant forall k :: i <= k < n - i ==> distribution[k] == before[k]
      {
        var t := distribution[i];
        distribution := distribution[i := distribution[n - 1 - i]][n - 1 - i := t];
        i := i + 1;
      }
    }
  }
}
