/**
 * The Durstenfeld form of the Fisher-Yates shuffle used to order the answer
 * buttons (index.js:256-260).  The loop walks i from the last index down to 1
 * and swaps cell i with a cell j drawn from [0, i].
 *
 * `Math.random` is replaced by an oracle `pick`: the draw made when the loop
 * is at index i is `pick(i)`.  Each index is visited once, so any sequence of
 * draws the browser could make is some such function.
 */
module Shuffle {

  /** The oracle's promise: `Math.floor(Math.random() * (i + 1))` lies in [0, i]. */
  ghost predicate ValidPicks(pick: nat -> nat) {
    forall k: nat :: pick(k) <= k
  }

  /** Exchange cells i and j (the destructuring assignment at index.js:259). */
  function Swap<T>(s: seq<T>, i: nat, j: nat): (r: seq<T>)
    requires i < |s| && j < |s|
    ensures |r| == |s|
    ensures r[i] == s[j] && r[j] == s[i]
    ensures forall k :: 0 <= k < |s| && k != i && k != j ==> r[k] == s[k]
  {
    s[i := s[j]][j := s[i]]
  }

  lemma SwapPermutes<T>(s: seq<T>, i: nat, j: nat)
    requires i < |s| && j < |s|
    ensures multiset(Swap(s, i, j)) == multiset(s)
  {
  }

  /** The shuffle loop from index i down to 1, as a function of the sequence. */
  function FisherYates<T>(s: seq<T>, i: int, pick: nat -> nat): (r: seq<T>)
    requires i < |s|
    requires ValidPicks(pick)
    ensures |r| == |s|
    ensures forall k :: i < k < |s| && 0 <= k ==> r[k] == s[k]
    decreases i
  {
    if i <= 0 then s else FisherYates(Swap(s, i, pick(i)), i - 1, pick)
  }

  /** What `shuffleArray` leaves in an array that held `s`. */
  function Shuffled<T>(s: seq<T>, pick: nat -> nat): (r: seq<T>)
    requires ValidPicks(pick)
    ensures |s| <= 1 ==> r == s
  {
    FisherYates(s, |s| - 1, pick)
  }

  /** shuffleArray: shuffles `a` in place, leaving a permutation of its contents. */
  method ShuffleArray<T>(a: array<T>, pick: nat -> nat)
    requires ValidPicks(pick)
    modifies a
    ensures a[..] == Shuffled(old(a[..]), pick)
    ensures multiset(a[..]) == multiset(old(a[..]))
  {
    ShuffledIsPermutation(a[..], pick);
    ghost var spec := Shuffled(a[..], pick);
    var i := a.Length - 1;
    while i > 0
      invariant -1 <= i < a.Length
      invariant a.Length > 0 ==> 0 <= i
      invariant FisherYates(a[..], i, pick) == spec
    {
      var j := pick(i);
      ghost var before := a[..];
      a[i], a[j] := a[j], a[i];
      assert a[..] == Swap(before, i, j);
      i := i - 1;
    }
  }

  /** Each step of the loop only exchanges cells, so the loop keeps the multiset. */
  lemma {:induction false} FisherYatesPermutes<T>(s: seq<T>, i: int, pick: nat -> nat)
    requires i < |s|
    requires ValidPicks(pick)
    ensures multiset(FisherYates(s, i, pick)) == multiset(s)
    decreases i
  {
    if i > 0 {
      SwapPermutes(s, i, pick(i));
      FisherYatesPermutes(Swap(s, i, pick(i)), i - 1, pick);
    }
  }

  /** The shuffle is a permutation: same length and same multiset as its input. */
  lemma ShuffledIsPermutation<T>(s: seq<T>, pick: nat -> nat)
    requires ValidPicks(pick)
    ensures |Shuffled(s, pick)| == |s|
    ensures multiset(Shuffled(s, pick)) == multiset(s)
  {
    FisherYatesPermutes(s, |s| - 1, pick);
  }

  /** FisherYates from index i consults the oracle only at indices 1..i. */
  lemma {:induction false} FisherYatesLocal<T>(s: seq<T>, i: int, p: nat -> nat, q: nat -> nat)
    requires i < |s|
    requires ValidPicks(p) && ValidPicks(q)
    requires forall k: nat :: 0 < k <= i ==> p(k) == q(k)
    ensures FisherYates(s, i, p) == FisherYates(s, i, q)
    decreases i
  {
    if i > 0 {
      FisherYatesLocal(Swap(s, i, p(i)), i - 1, p, q);
    }
  }

  /** With everything above cell 0 in place, the two sequences agree. */
  lemma SameWhenTopFixed<T>(s: seq<T>, t: seq<T>)
    requires 0 < |s| == |t|
    requires s[1..] == t[1..]
    requires multiset(s[..1]) == multiset(t[..1])
    ensures s == t
  {
    assert s[..1] == [s[0]] && t[..1] == [t[0]];
    assert s[0] in multiset(t[..1]);
    assert s == s[..1] + s[1..] && t == t[..1] + t[1..];
  }

  /** The element that belongs in cell i is found at some j in [0, i]. */
  lemma SourceOfTop<T>(s: seq<T>, t: seq<T>, i: nat) returns (j: nat)
    requires i < |s| == |t|
    requires multiset(s[..i + 1]) == multiset(t[..i + 1])
    ensures j <= i && s[j] == t[i]
  {
    assert t[..i + 1][i] == t[i];
    assert t[i] in multiset(s[..i + 1]);
    j :| 0 <= j < i + 1 && s[..i + 1][j] == t[i];
  }

  /** Equal multisets stay equal when the same element is removed from the end. */
  lemma MultisetCancelLast<T>(a: seq<T>, b: seq<T>, x: T)
    requires multiset(a + [x]) == multiset(b + [x])
    ensures multiset(a) == multiset(b)
  {
    assert multiset(a) == multiset(a + [x]) - multiset{x};
    assert multiset(b) == multiset(b + [x]) - multiset{x};
  }

  /** Swapping the right element into cell i leaves a smaller instance of the same problem. */
  lemma SwapFixesTop<T>(s: seq<T>, t: seq<T>, i: nat, j: nat)
    requires 0 < i < |s| == |t| && j <= i
    requires s[i + 1..] == t[i + 1..]
    requires multiset(s[..i + 1]) == multiset(t[..i + 1])
    requires s[j] == t[i]
    ensures Swap(s, i, j)[i..] == t[i..]
    ensures multiset(Swap(s, i, j)[..i]) == multiset(t[..i])
  {
    var s' := Swap(s, i, j);
    assert s'[..i + 1] == Swap(s[..i + 1], i, j);
    SwapPermutes(s[..i + 1], i, j);
    assert s'[..i + 1] == s'[..i] + [t[i]];
    assert t[..i + 1] == t[..i] + [t[i]];
    MultisetCancelLast(s'[..i], t[..i], t[i]);
    assert s'[i..] == [t[i]] + s[i + 1..];
    assert t[i..] == [t[i]] + t[i + 1..];
  }

  /**
   * Every reordering of s[..i+1] is reachable: for a target t that agrees
   * with s above i and holds the same elements below, some run of the
   * oracle makes FisherYates produce t.
   */
  lemma {:induction false} FisherYatesReaches<T>(s: seq<T>, t: seq<T>, i: int) returns (pick: nat -> nat)
    requires 0 <= i < |s| == |t|
    requires s[i + 1..] == t[i + 1..]
    requires multiset(s[..i + 1]) == multiset(t[..i + 1])
    ensures ValidPicks(pick) && FisherYates(s, i, pick) == t
    decreases i
  {
    if i == 0 {
      SameWhenTopFixed(s, t);
      pick := k => 0;
    } else {
      var j := SourceOfTop(s, t, i);
      var s' := Swap(s, i, j);
      SwapFixesTop(s, t, i, j);
      var p' := FisherYatesReaches(s', t, i - 1);
      pick := k => if k == i then j else p'(k);
      FisherYatesLocal(s', i - 1, pick, p');
    }
  }

  /** Every permutation of the input is a possible outcome of `shuffleArray`. */
  lemma ShuffledReachesEveryPermutation<T>(s: seq<T>, t: seq<T>) returns (pick: nat -> nat)
    requires multiset(s) == multiset(t)
    ensures ValidPicks(pick) && Shuffled(s, pick) == t
  {
    assert |s| == |multiset(s)| == |t|;
    if |s| == 0 {
      pick := k => 0;
    } else {
      assert s[..|s|] == s && t[..|t|] == t;
      pick := FisherYatesReaches(s, t, |s| - 1);
    }
  }

  /** No element occurs twice. */
  ghost predicate Distinct<T>(s: seq<T>) {
    forall a, b :: 0 <= a < |s| && 0 <= b < |s| && a != b ==> s[a] != s[b]
  }

  lemma SwapDistinct<T>(s: seq<T>, i: nat, j: nat)
    requires i < |s| && j < |s| && Distinct(s)
    ensures Distinct(Swap(s, i, j))
  {
    var r := Swap(s, i, j);
    forall a, b | 0 <= a < |r| && 0 <= b < |r| && a != b ensures r[a] != r[b] {
      var a' := if a == i then j else if a == j then i else a;
      var b' := if b == i then j else if b == j then i else b;
      assert r[a] == s[a'] && r[b] == s[b'];
      assert a' != b';
    }
  }

  /**
   * Over distinct elements, different oracle runs give different orders:
   * the outcome determines every draw.  With the previous lemma this makes
   * the draws and the permutations correspond one to one.
   */
  lemma {:induction false} FisherYatesDeterminesPicks<T>(s: seq<T>, i: int, p: nat -> nat, q: nat -> nat)
    requires i < |s| && Distinct(s)
    requires ValidPicks(p) && ValidPicks(q)
    requires FisherYates(s, i, p) == FisherYates(s, i, q)
    ensures forall k: nat :: 0 < k <= i ==> p(k) == q(k)
    decreases i
  {
    if i > 0 {
      var jp, jq := p(i), q(i);
      var sp, sq := Swap(s, i, jp), Swap(s, i, jq);
      var rp, rq := FisherYates(sp, i - 1, p), FisherYates(sq, i - 1, q);
      assert rp == FisherYates(s, i, p) && rq == FisherYates(s, i, q);
      assert rp[i] == sp[i] == s[jp];
      assert rq[i] == sq[i] == s[jq];
      assert jp == jq;
      SwapDistinct(s, i, p(i));
      FisherYatesDeterminesPicks(sp, i - 1, p, q);
    }
  }

  /** Over distinct elements, the shuffled order determines every draw of the oracle. */
  lemma ShuffledDeterminesPicks<T>(s: seq<T>, p: nat -> nat, q: nat -> nat)
    requires Distinct(s) && ValidPicks(p) && ValidPicks(q)
    requires Shuffled(s, p) == Shuffled(s, q)
    ensures forall k: nat :: 0 < k < |s| ==> p(k) == q(k)
  {
    FisherYatesDeterminesPicks(s, |s| - 1, p, q);
  }
}
