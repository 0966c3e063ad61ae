/**
 The cycle construction at the heart of PLONK's copy constraints, on a plain table of
 variable IDs.

 Given the table `lro` (position -> variable ID), every position is linked to the
 previous position holding the same ID, and the first position of each ID is then
 linked to the last one. The result is a permutation of the positions whose cycles are
 exactly the classes of positions sharing an ID.
 */
module Cycles {

  /** The last position before `k` holding `v`, or -1 when there is none. */
  function LastBefore(s: seq<int>, v: int, k: nat): (j: int)
    requires k <= |s|
    ensures -1 <= j < k
    ensures j >= 0 ==> s[j] == v
    ensures forall q :: j < q < k ==> s[q] != v
    decreases k
  {
    if k == 0 then -1
    else if s[k - 1] == v then k - 1
    else LastBefore(s, v, k - 1)
  }

  /** The first position at or after `k` holding `v`, or `|s|` when there is none. */
  function NextFrom(s: seq<int>, v: int, k: nat): (j: nat)
    requires k <= |s|
    ensures k <= j <= |s|
    ensures j < |s| ==> s[j] == v
    ensures forall q :: k <= q < j ==> s[q] != v
    decreases |s| - k
  {
    if k == |s| then |s|
    else if s[k] == v then k
    else NextFrom(s, v, k + 1)
  }

  /** The first position holding `v`, for an ID that occurs. */
  function FirstOf(s: seq<int>, v: int): (f: nat)
    requires v in s
    ensures f < |s| && s[f] == v && f == NextFrom(s, v, 0)
  {
    var f := NextFrom(s, v, 0);
    assert f < |s| by {
      var j :| 0 <= j < |s| && s[j] == v;
    }
    f
  }

  /** The set of IDs met in the first `k` positions. */
  ghost function Seen(s: seq<int>, k: nat): set<int>
    requires k <= |s|
  {
    set j | 0 <= j < k :: s[j]
  }

  /** A position of the table is the first occurrence of its ID. */
  predicate IsFirst(s: seq<int>, i: nat)
    requires i < |s|
  {
    LastBefore(s, s[i], i) < 0
  }

  /**
   Where the copy-constraint permutation sends position `i`: to the most recent earlier
   position with the same ID, or, for the first occurrence of an ID, to its last
   occurrence (so an ID met once is a fixed point).
   */
  function Target(s: seq<int>, i: nat): (t: int)
    requires i < |s|
    ensures 0 <= t < |s| && s[t] == s[i]
  {
    var p := LastBefore(s, s[i], i);
    if p >= 0 then p else LastBefore(s, s[i], |s|)
  }

  /**
   A position that is not the first of its ID points to the most recent earlier
   position with that ID; the first position of an ID points to its last position; an
   ID met only once is a fixed point.
   */
  lemma TargetShape(s: seq<int>, i: nat)
    requires i < |s|
    ensures !IsFirst(s, i) ==>
              var t := Target(s, i);
              t < i && s[t] == s[i] && forall q :: t < q < i ==> s[q] != s[i]
    ensures IsFirst(s, i) ==>
              var t := Target(s, i);
              i <= t && s[t] == s[i] && forall q :: t < q < |s| ==> s[q] != s[i]
    ensures (forall q :: 0 <= q < |s| && q != i ==> s[q] != s[i]) ==> Target(s, i) == i
  {
  }

  /** A bijection of `[0, |perm|)` onto itself, i.e. a union of disjoint cycles. */
  ghost predicate IsBijection(perm: seq<int>) {
    && (forall i :: 0 <= i < |perm| ==> 0 <= perm[i] < |perm|)
    && (forall i, j :: 0 <= i < |perm| && 0 <= j < |perm| && perm[i] == perm[j] ==> i == j)
    && (forall p :: 0 <= p < |perm| ==> p in perm)
  }

  /** The permutation keeps the table: `s[perm[i]] == s[i]` everywhere. */
  ghost predicate PreservesIds(s: seq<int>, perm: seq<int>)
    requires |perm| == |s|
  {
    forall i :: 0 <= i < |s| ==> 0 <= perm[i] < |s| && s[perm[i]] == s[i]
  }

  /** Two positions sent to the same place by `Target` are the same position. */
  lemma TargetInjective(s: seq<int>, i: nat, j: nat)
    requires i < |s| && j < |s|
    requires Target(s, i) == Target(s, j)
    ensures i == j
  {
    TargetShape(s, i);
    TargetShape(s, j);
    var t := Target(s, i);
    assert s[i] == s[t] == s[j];
  }

  /** Every position is the target of some position. */
  lemma TargetSurjective(s: seq<int>, p: nat) returns (i: nat)
    requires p < |s|
    ensures i < |s| && Target(s, i) == p
  {
    var v := s[p];
    var next := NextFrom(s, v, p + 1);
    if next < |s| {
      i := next;
      assert LastBefore(s, v, i) == p;
    } else {
      i := NextFrom(s, v, 0);
      assert i <= p;
      assert LastBefore(s, v, i) == -1;
      assert LastBefore(s, v, |s|) == p;
    }
  }

  /** `Target`, taken at every position, is a bijection that keeps the table. */
  lemma TargetIsPermutation(s: seq<int>, perm: seq<int>)
    requires |perm| == |s|
    requires forall i :: 0 <= i < |s| ==> perm[i] == Target(s, i)
    ensures IsBijection(perm)
    ensures PreservesIds(s, perm)
  {
    forall i, j | 0 <= i < |perm| && 0 <= j < |perm| && perm[i] == perm[j]
      ensures i == j
    {
      TargetInjective(s, i, j);
    }
    forall p | 0 <= p < |perm|
      ensures p in perm
    {
      var i := TargetSurjective(s, p);
      assert perm[i] == p;
    }
  }

  lemma SeenStep(s: seq<int>, k: nat)
    requires k < |s|
    ensures Seen(s, k + 1) == Seen(s, k) + {s[k]}
    ensures s[k] in Seen(s, k) <==> LastBefore(s, s[k], k) >= 0
    ensures LastBefore(s, s[k], k) >= 0 ==> |Seen(s, k + 1)| == |Seen(s, k)|
    ensures LastBefore(s, s[k], k) < 0 ==> |Seen(s, k + 1)| == |Seen(s, k)| + 1
  {
    assert Seen(s, k + 1) == Seen(s, k) + {s[k]};
    var j := LastBefore(s, s[k], k);
    if j >= 0 {
      assert s[k] in Seen(s, k);
      assert Seen(s, k + 1) == Seen(s, k);
    }
  }

  /** The IDs `[0, m)`. */
  ghost function Range(m: nat): (r: set<int>)
    ensures forall v :: v in r <==> 0 <= v < m
    ensures |r| == m
  {
    if m == 0 then {} else Range(m - 1) + {m - 1}
  }

  /** When the table uses exactly the IDs `[0, m)`, all `m` of them are seen by the end. */
  lemma SeenAll(s: seq<int>, m: nat)
    requires forall i :: 0 <= i < |s| ==> 0 <= s[i] < m
    requires forall v :: 0 <= v < m ==> v in s
    ensures Seen(s, |s|) == Range(m)
    ensures |Seen(s, |s|)| == m
  {
    forall v | v in Range(m)
      ensures v in Seen(s, |s|)
    {
      assert v in s;
      var j :| 0 <= j < |s| && s[j] == v;
    }
  }

  /** The number of first occurrences at positions `k` and later. */
  function Firsts(s: seq<int>, k: nat): nat
    requires k <= |s|
    decreases |s| - k
  {
    if k == |s| then 0
    else (if IsFirst(s, k) then 1 else 0) + Firsts(s, k + 1)
  }

  /** Every ID not yet seen before `k` has its first occurrence at `k` or later. */
  lemma {:induction false} FirstsAndSeen(s: seq<int>, k: nat)
    requires k <= |s|
    ensures Firsts(s, k) + |Seen(s, k)| == |Seen(s, |s|)|
    decreases |s| - k
  {
    if k < |s| {
      FirstsAndSeen(s, k + 1);
      SeenStep(s, k);
    }
  }

  /** No first occurrence is left from `k` on. */
  lemma {:induction false} NoFirstsLeft(s: seq<int>, k: nat)
    requires k <= |s|
    requires Firsts(s, k) == 0
    ensures forall j :: k <= j < |s| ==> !IsFirst(s, j)
    decreases |s| - k
  {
    if k < |s| {
      NoFirstsLeft(s, k + 1);
    }
  }

  /**
   First pass of the permutation builder over the table `lro` of IDs in
   `[0, nbVariables)`: every position starts at the sentinel -1 and is then linked to
   the previous occurrence of its ID, while `cycle` records the last position each ID
   was seen at.
   */
  method LinkOccurrences(lro: seq<int>, nbVariables: nat) returns (perm: seq<int>, cycle: seq<int>)
    requires forall i :: 0 <= i < |lro| ==> 0 <= lro[i] < nbVariables
    ensures |perm| == |lro| && |cycle| == nbVariables
    ensures forall i {:trigger perm[i]} :: 0 <= i < |lro| ==> perm[i] == LastBefore(lro, lro[i], i)
    ensures forall v :: 0 <= v < nbVariables ==> cycle[v] == LastBefore(lro, v, |lro|)
  {
    perm := seq(|lro|, _ => -1);
    cycle := seq(nbVariables, _ => -1);
    var i := 0;
    while i < |lro|
      invariant 0 <= i <= |lro|
      invariant |perm| == |lro| && |cycle| == nbVariables
      invariant forall j {:trigger perm[j]} :: 0 <= j < i ==> perm[j] == LastBefore(lro, lro[j], j)
      invariant forall j :: i <= j < |lro| ==> perm[j] == -1
      invariant forall v :: 0 <= v < nbVariables ==> cycle[v] == LastBefore(lro, v, i)
    {
      if cycle[lro[i]] != -1 {
        perm := perm[i := cycle[lro[i]]];
      }
      cycle := cycle[lro[i] := i];
      i := i + 1;
    }
  }

  /**
   Second pass: walk the table filling each remaining -1 (a first occurrence) with the
   last occurrence of its ID, and stop once `nbVariables` of them are filled. The walk
   stays inside the table only because every ID in `[0, nbVariables)` occurs.
   */
  method CloseCycles(lro: seq<int>, nbVariables: nat, linked: seq<int>, cycle: seq<int>)
    returns (perm: seq<int>)
    requires forall i :: 0 <= i < |lro| ==> 0 <= lro[i] < nbVariables
    requires forall v :: 0 <= v < nbVariables ==> v in lro
    requires |linked| == |lro| && |cycle| == nbVariables
    requires forall i {:trigger linked[i]} :: 0 <= i < |lro| ==> linked[i] == LastBefore(lro, lro[i], i)
    requires forall v :: 0 <= v < nbVariables ==> cycle[v] == LastBefore(lro, v, |lro|)
    ensures |perm| == |lro|
    ensures forall i {:trigger perm[i]} :: 0 <= i < |lro| ==> perm[i] == Target(lro, i)
  {
    perm := linked;
    SeenAll(lro, nbVariables);
    FirstsAndSeen(lro, 0);
    var counter := nbVariables;
    var iter := 0;
    while counter > 0
      invariant 0 <= iter <= |lro|
      invariant |perm| == |lro|
      invariant counter == Firsts(lro, iter)
      invariant forall j {:trigger perm[j]} :: 0 <= j < iter ==> perm[j] == Target(lro, j)
      invariant forall j {:trigger perm[j]} :: iter <= j < |lro| ==> perm[j] == LastBefore(lro, lro[j], j)
      decreases |lro| - iter
    {
      if perm[iter] == -1 {
        perm := perm[iter := cycle[lro[iter]]];
        counter := counter - 1;
      }
      iter := iter + 1;
    }
    NoFirstsLeft(lro, iter);
    forall j | iter <= j < |lro|
      ensures perm[j] == Target(lro, j)
    {
      assert !IsFirst(lro, j);
    }
  }

  /**
   The copy-constraint permutation of `lro`: both passes. The result has no sentinel
   left, is a bijection of the positions, and sends every position to one holding the
   same ID.
   */
  method BuildCycles(lro: seq<int>, nbVariables: nat) returns (perm: seq<int>)
    requires forall i :: 0 <= i < |lro| ==> 0 <= lro[i] < nbVariables
    requires forall v :: 0 <= v < nbVariables ==> v in lro
    ensures |perm| == |lro|
    ensures forall i {:trigger perm[i]} :: 0 <= i < |lro| ==> perm[i] == Target(lro, i)
    ensures forall i :: 0 <= i < |lro| ==> perm[i] != -1
    ensures IsBijection(perm)
    ensures PreservesIds(lro, perm)
  {
    var linked, cycle := LinkOccurrences(lro, nbVariables);
    perm := CloseCycles(lro, nbVariables, linked, cycle);
    TargetIsPermutation(lro, perm);
  }

  /** Values kept by `Target` at every position: each position carries the value of the first occurrence of its ID. */
  lemma {:induction false} ValueOfFirst(s: seq<int>, perm: seq<int>, vals: seq<int>, q: nat)
    requires |perm| == |vals| == |s|
    requires forall i :: 0 <= i < |s| ==> perm[i] == Target(s, i)
    requires forall i :: 0 <= i < |s| ==> 0 <= perm[i] < |s| && vals[perm[i]] == vals[i]
    requires q < |s|
    ensures NextFrom(s, s[q], 0) <= q
    ensures vals[q] == vals[NextFrom(s, s[q], 0)]
    decreases q
  {
    var f := NextFrom(s, s[q], 0);
    var t := LastBefore(s, s[q], q);
    if t < 0 {
      assert f == q;
    } else {
      assert perm[q] == t;
      ValueOfFirst(s, perm, vals, t);
    }
  }

  /**
   The cycles of `Target` are whole ID classes: values that every position shares with
   the position `Target` sends it to agree on all positions holding the same ID.
   */
  lemma SharedIdSharedValue(s: seq<int>, perm: seq<int>, vals: seq<int>)
    requires |perm| == |vals| == |s|
    requires forall i :: 0 <= i < |s| ==> perm[i] == Target(s, i)
    requires forall i :: 0 <= i < |s| ==> 0 <= perm[i] < |s| && vals[perm[i]] == vals[i]
    ensures forall p, q :: 0 <= p < |s| && 0 <= q < |s| && s[p] == s[q] ==> vals[p] == vals[q]
  {
    forall p, q | 0 <= p < |s| && 0 <= q < |s| && s[p] == s[q]
      ensures vals[p] == vals[q]
    {
      ValueOfFirst(s, perm, vals, p);
      ValueOfFirst(s, perm, vals, q);
    }
  }

  /** `a` read through `perm`: position `i` holds `a[perm[i]]`. */
  function Reindex<T>(a: seq<T>, perm: seq<int>): (b: seq<T>)
    requires |perm| == |a|
    requires forall i :: 0 <= i < |perm| ==> 0 <= perm[i] < |a|
    ensures |b| == |a|
  {
    seq(|a|, i requires 0 <= i < |a| => a[perm[i]])
  }

  /** Dropping the position sent to the top value leaves a bijection of the rest. */
  lemma DropTop(perm: seq<int>, j: nat) returns (rest: seq<int>)
    requires IsBijection(perm)
    requires j < |perm| && perm[j] == |perm| - 1
    ensures rest == perm[..j] + perm[j + 1..]
    ensures IsBijection(rest)
  {
    rest := perm[..j] + perm[j + 1..];
    var m := |perm| - 1;
    assert |rest| == m;
    forall i | 0 <= i < m
      ensures rest[i] == if i < j then perm[i] else perm[i + 1]
    {
    }
    forall i | 0 <= i < m
      ensures 0 <= rest[i] < m
    {
      var k := if i < j then i else i + 1;
      assert rest[i] == perm[k] && k != j;
    }
    forall p | 0 <= p < m
      ensures p in rest
    {
      assert p in perm;
      var k :| 0 <= k < |perm| && perm[k] == p;
      assert k != j;
      var i := if k < j then k else k - 1;
      assert rest[i] == p;
    }
  }

  /** Reading `a` through `perm` is reading its prefix through `rest`, with the top element put back at `j`. */
  lemma ReindexDrop<T>(a: seq<T>, perm: seq<int>, j: nat, rest: seq<int>)
    requires |perm| == |a| && IsBijection(perm)
    requires j < |perm| && perm[j] == |perm| - 1
    requires rest == perm[..j] + perm[j + 1..] && IsBijection(rest)
    ensures var b' := Reindex(a[..|a| - 1], rest);
            Reindex(a, perm) == b'[..j] + [a[|a| - 1]] + b'[j..]
  {
    var m := |a| - 1;
    var b := Reindex(a, perm);
    var b' := Reindex(a[..m], rest);
    var c := b'[..j] + [a[m]] + b'[j..];
    assert |c| == |b|;
    forall i | 0 <= i < |b|
      ensures b[i] == c[i]
    {
      if i < j {
        assert c[i] == b'[i] == a[rest[i]];
      } else if i > j {
        assert c[i] == b'[i - 1] == a[rest[i - 1]];
      }
    }
  }

  /** Reading a sequence through a bijection rearranges it: the multiset is unchanged. */
  lemma {:induction false} ReindexMultiset<T>(a: seq<T>, perm: seq<int>)
    requires |perm| == |a|
    requires IsBijection(perm)
    ensures multiset(Reindex(a, perm)) == multiset(a)
    decreases |a|
  {
    if |a| > 0 {
      var m := |a| - 1;
      assert m in perm;
      var j :| 0 <= j < |perm| && perm[j] == m;
      var rest := DropTop(perm, j);
      var a' := a[..m];
      ReindexMultiset(a', rest);
      ReindexDrop(a, perm, j, rest);
      InsertMultiset(Reindex(a', rest), j, a[m]);
      assert a == a' + [a[m]];
    }
  }

  /** Inserting `x` anywhere adds one `x` to the multiset. */
  lemma InsertMultiset<T>(s: seq<T>, j: nat, x: T)
    requires j <= |s|
    ensures multiset(s[..j] + [x] + s[j..]) == multiset(s) + multiset{x}
  {
    assert s == s[..j] + s[j..];
  }
}
