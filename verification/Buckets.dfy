/** The chain of fixed-size buckets that records the reserved (begin, size) pairs. */
module Buckets {
  import opened Regions

  const BUCKET_ENTRIES := 32

  // The pair number `j` stored in a bucket's words.
  function PairAt(words: seq<nat>, j: nat): Range
    requires 2 * j + 1 < |words|
  {
    Range(words[2 * j], words[2 * j + 1])
  }

  const LINK := 2 * BUCKET_ENTRIES + 1  // the index of the word that holds the link

  // The words of a bucket that the program has stored to: those of its `n` pairs, the terminator behind them,
  // and the link if there is a next bucket. It stores nothing into a bucket that stays empty.
  predicate IsStored(w: int, n: nat, linked: bool) {
    (n > 0 && 0 <= w <= 2 * n) || (linked && w == LINK)
  }

  /** The pairs and the terminator in `ptrSize`, which the bucket holds inline, and the last word, the link. */
  class MemoryRegionBucket {
    var ptrSize: seq<nat>
    var link: MemoryRegionBucket?
    ghost const index: nat  // the place in the chain
    ghost var pairs: seq<Range>
    ghost var stored: set<int>  // the words stored to

    // The words hold `pairs`, followed by a zero word.
    ghost predicate Valid()
      reads this
    {
      && |ptrSize| == LINK
      && |pairs| <= BUCKET_ENTRIES
      && (forall j {:trigger PairAt(ptrSize, j)} :: 0 <= j < |pairs| ==> PairAt(ptrSize, j) == pairs[j])
      && ptrSize[2 * |pairs|] == 0
      && forall w :: w in stored <==> IsStored(w, |pairs|, link != null)
    }

    constructor (ghost index: nat)
      ensures Valid() && link == null && pairs == [] && this.index == index
    {
      ptrSize := seq(LINK, _ => 0);
      link := null;
      pairs := [];
      stored := {};
      this.index := index;
    }

    method Put(position: nat, begin: nat, size: nat)
      requires Valid() && position == 2 * |pairs| < 2 * BUCKET_ENTRIES
      modifies `pairs, `ptrSize, `stored
      ensures Valid() && pairs == old(pairs) + [Range(begin, size)]
      ensures stored == old(stored) + {position, position + 1, position + 2}
      ensures ptrSize == old(ptrSize)[position := begin][position + 1 := size][position + 2 := 0]
    {
      ghost var words := ptrSize;
      ptrSize := ptrSize[position := begin];
      ptrSize := ptrSize[position + 1 := size];
      ptrSize := ptrSize[position + 2 := 0];
      stored := stored + {position, position + 1, position + 2};
      assert forall j {:trigger PairAt(ptrSize, j)} :: 0 <= j < |pairs| ==> PairAt(ptrSize, j) == PairAt(words, j);
      pairs := pairs + [Range(begin, size)];
    }

    method LinkTo(next: MemoryRegionBucket)
      requires Valid()
      modifies `link, `stored
      ensures Valid() && link == next && stored == old(stored) + {LINK}
    {
      link := next;
      stored := stored + {LINK};
    }
  }

  function Flatten(content: seq<seq<Range>>): seq<Range> {
    if content == [] then [] else content[0] + Flatten(content[1..])
  }

  lemma {:induction false} FlattenAppend(a: seq<seq<Range>>, b: seq<seq<Range>>)
    ensures Flatten(a + b) == Flatten(a) + Flatten(b)
  {
    if a == [] {
      assert a + b == b;
    } else {
      assert (a + b)[1..] == a[1..] + b;
      FlattenAppend(a[1..], b);
    }
  }

  lemma FlattenSplit(content: seq<seq<Range>>, i: nat)
    requires i < |content|
    ensures Flatten(content[..i + 1]) == Flatten(content[..i]) + content[i]
  {
    assert content[..i + 1] == content[..i] + [content[i]];
    FlattenAppend(content[..i], [content[i]]);
    assert Flatten([content[i]]) == content[i] + Flatten([]);
  }

  // The pairs per bucket once `r` is added.
  function Appended(content: seq<seq<Range>>, r: Range): seq<seq<Range>>
    requires |content| > 0
  {
    var last := |content| - 1;
    if |content[last]| == BUCKET_ENTRIES then content + [[r]] else content[last := content[last] + [r]]
  }

  lemma FlattenAppended(content: seq<seq<Range>>, r: Range)
    requires |content| > 0
    ensures Flatten(Appended(content, r)) == Flatten(content) + [r]
  {
    var last := |content| - 1;
    if |content[last]| == BUCKET_ENTRIES {
      FlattenAppend(content, [[r]]);
      assert Flatten([[r]]) == [r] + Flatten([]);
    } else {
      var content' := Appended(content, r);
      FlattenSplit(content, last);
      FlattenSplit(content', last);
      assert content[..last + 1] == content && content'[..last + 1] == content' && content'[..last] == content[..last];
    }
  }

  // The sizes of the buckets of a chain: all are full but the last, which is empty only if it is the first.
  ghost predicate Filled(content: seq<seq<Range>>) {
    && |content| > 0
    && (forall i :: 0 <= i < |content| - 1 ==> |content[i]| == BUCKET_ENTRIES)
    && |content[|content| - 1]| <= BUCKET_ENTRIES
    && (|content| > 1 ==> content[|content| - 1] != [])
  }

  lemma FilledAppended(content: seq<seq<Range>>, r: Range)
    requires Filled(content)
    ensures Filled(Appended(content, r))
  {}

  lemma {:induction false} FlattenSize(content: seq<seq<Range>>)
    requires Filled(content)
    ensures |Flatten(content)| == BUCKET_ENTRIES * (|content| - 1) + |content[|content| - 1]|
  {
    if |content| == 1 {
      assert Flatten(content) == content[0] + Flatten([]);
    } else {
      FlattenSize(content[1..]);
    }
  }

  class RegionList {
    const root: MemoryRegionBucket
    var current: MemoryRegionBucket
    var position: nat

    ghost var chain: seq<MemoryRegionBucket>
    ghost var content: seq<seq<Range>>  // the pairs in each bucket of the chain
    ghost var pairs: seq<Range>
    ghost var Repr: set<object>

    // Bucket `i` has its place in the chain, stores the pairs `content[i]`, and is full unless it is the last.
    ghost predicate InPlace(i: nat)
      reads this, Repr
    {
      && i < |chain| && chain[i] in Repr && chain[i].index == i
      && chain[i].link == (if i + 1 < |chain| then chain[i + 1] else null)
      && i < |content| && chain[i].Valid() && chain[i].pairs == content[i]
      && (i + 1 < |chain| ==> |content[i]| == BUCKET_ENTRIES)
    }

    ghost predicate Linked()
      reads this, Repr
    {
      && this in Repr
      && |content| == |chain| > 0 && chain[0] == root && chain[|chain| - 1] == current
      && (forall i: nat {:trigger InPlace(i)} :: i < |chain| ==> InPlace(i))
      && position == 2 * |content[|content| - 1]|
    }

    ghost predicate Valid()
      reads this, Repr
      ensures Valid() ==> this in Repr
    {
      && Linked() && pairs == Flatten(content)
      && Filled(content)
    }

    constructor ()
      ensures Valid() && fresh(Repr) && pairs == []
    {
      var bucket := new MemoryRegionBucket(0);
      root := bucket;
      current := bucket;
      position := 0;
      chain := [bucket];
      content := [[]];
      pairs := [];
      Repr := {this, bucket};
    }

    method Add(begin: nat, size: nat)
      requires Valid()
      modifies Repr
      ensures Valid() && fresh(Repr - old(Repr))
      ensures pairs == old(pairs) + [Range(begin, size)]
    {
      assert InPlace(|chain| - 1);
      FlattenAppended(content, Range(begin, size));
      FilledAppended(content, Range(begin, size));
      AddToChain(begin, size);
      label Added:
      pairs := pairs + [Range(begin, size)];
      forall i: nat | i < |chain| ensures InPlace(i) {
        assert old@Added(InPlace(i));
      }
    }

    method AddToChain(begin: nat, size: nat)
      requires Linked()
      modifies Repr
      ensures Linked() && fresh(Repr - old(Repr))
      ensures content == Appended(old(content), Range(begin, size))
      ensures pairs == old(pairs)
    {
      assert InPlace(|chain| - 1);
      if position == BUCKET_ENTRIES * 2 {
        LinkBucket();
        assert InPlace(|chain| - 1);
      }
      Store(begin, size);
      assert [] + [Range(begin, size)] == [Range(begin, size)];
    }

    // Appends an empty bucket to a chain whose last bucket is full.
    method LinkBucket()
      requires Linked() && position == BUCKET_ENTRIES * 2
      modifies this`current, this`position, this`chain, this`content, this`Repr, current`link, current`stored
      ensures Linked() && fresh(Repr - old(Repr)) && position == 0
      ensures content == old(content) + [[]]
    {
      ghost var last := |chain| - 1;
      assert InPlace(last);
      var bucket := new MemoryRegionBucket(|chain|);
      current.LinkTo(bucket);
      current := bucket;
      position := 0;
      chain := chain + [bucket];
      content := content + [[]];
      Repr := Repr + {bucket};
      forall i: nat | i < |chain| ensures InPlace(i) {
        assert i < last ==> old(InPlace(i));
      }
    }

    // Stores a pair in the last bucket, which has room.
    method Store(begin: nat, size: nat)
      requires Linked() && position < BUCKET_ENTRIES * 2
      modifies this`position, this`content, current`pairs, current`ptrSize, current`stored
      ensures Linked() && position == old(position) + 2
      ensures var last := |content| - 1;
              content == old(content[last := content[last] + [Range(begin, size)]])
    {
      ghost var last := |content| - 1;
      assert InPlace(last);
      current.Put(position, begin, size);
      position := position + 2;
      content := content[last := content[last] + [Range(begin, size)]];
      forall i: nat | i < |chain| ensures InPlace(i) {
        assert old(InPlace(i));
      }
    }

    // All the program's stores stay within buckets of `words` words.
    ghost predicate StoresFit(words: nat)
      reads this, Repr
      requires Valid()
    {
      forall i, w :: 0 <= i < |chain| && InPlace(i) && w in chain[i].stored ==> w < words
    }

    // They fit the intended bucket of 66 words, but the 33 words declared are enough just if there are at most
    // sixteen pairs.
    lemma DeclaredBucketHoldsSixteen()
      requires Valid()
      ensures StoresFit(66)
      ensures StoresFit(33) <==> |pairs| <= 16
    {
      FlattenSize(content);
      assert InPlace(0);
      if |pairs| > 16 {
        assert 33 in chain[0].stored;
      }
    }

    // Reads the chain back from the root: pairs up to a zero word, or up to the end of a bucket and
    // then on through its link. It finds all the pairs just if none of them begins at address zero. The words
    // it reads have then all been stored to, not just allocated, exactly if there are pairs and the last bucket
    // is not full.
    method Walk() returns (found: seq<Range>, ghost onlyStored: bool)
      requires Valid()
      ensures found <= pairs
      ensures found == pairs <==> forall i :: 0 <= i < |pairs| ==> pairs[i].begin > 0
      ensures found == pairs ==> (onlyStored <==> |pairs| > 0 && |pairs| % 32 != 0)
    {
      found, onlyStored := [], true;
      var bucket := root;
      var i := 0;
      ghost var b := 0;
      ghost var j := 0;
      assert Preceding(content, 0, 0) == [];
      while true
        invariant 0 <= b < |chain| && bucket == chain[b] && 0 <= j <= |content[b]| && i == 2 * j
        invariant found == Preceding(content, b, j) && forall i :: 0 <= i < |found| ==> found[i].begin > 0
        invariant onlyStored
        decreases |chain| - b, BUCKET_ENTRIES - j
      {
        assert InPlace(b);
        onlyStored := (if i == BUCKET_ENTRIES * 2 then LINK else i) in bucket.stored;
        if j == |content[b]| {
          BeforeBucket(content, b);
        } else {
          BeforePair(content, b, j);
          assert PairAt(bucket.ptrSize, j) == content[b][j];
        }
        if i == BUCKET_ENTRIES * 2 {
          if bucket.link == null { return; }
          bucket := bucket.link;
          b, j, i := b + 1, 0, 0;
        } else if bucket.ptrSize[i] == 0 {
          return;
        } else {
          found := found + [Range(bucket.ptrSize[i], bucket.ptrSize[i + 1])];
          onlyStored := onlyStored && i + 1 in bucket.stored;
          i := i + 2;
          j := j + 1;
        }
      }
    }
  }

  // The pairs before pair `j` of bucket `b`.
  function Preceding(content: seq<seq<Range>>, b: nat, j: nat): seq<Range>
    requires b < |content| && j <= |content[b]|
  {
    Flatten(content[..b]) + content[b][..j]
  }

  lemma BeforePair(content: seq<seq<Range>>, b: nat, j: nat)
    requires b < |content| && j < |content[b]|
    ensures Preceding(content, b, j + 1) == Preceding(content, b, j) + [content[b][j]] <= Flatten(content)
    ensures Flatten(content)[|Preceding(content, b, j)|] == content[b][j]
  {
    FlattenSplit(content, b);
    FlattenAppend(content[..b + 1], content[b + 1..]);
    assert content[..b + 1] + content[b + 1..] == content;
    assert content[b][..j + 1] == content[b][..j] + [content[b][j]];
    assert content[b] == content[b][..j] + [content[b][j]] + content[b][j + 1..];
  }

  // The end of a bucket is the start of the next, or the end of all the pairs, whose number then shows whether
  // the bucket is full or empty.
  lemma BeforeBucket(content: seq<seq<Range>>, b: nat)
    requires Filled(content) && b < |content|
    ensures var all := Preceding(content, b, |content[b]|);
            if b + 1 < |content| then all == Preceding(content, b + 1, 0)
            else all == Flatten(content)
                 && (|all| > 0 && |all| % BUCKET_ENTRIES != 0 <==> 0 < |content[b]| < BUCKET_ENTRIES)
  {
    FlattenSplit(content, b);
    FlattenSize(content);
    assert content[b][..|content[b]|] == content[b];
    if b + 1 == |content| { assert content[..b + 1] == content; }
  }
}
