/**
 * Mail-exchange records and the order in which the pipeline tries them:
 * `mxRecords.sort((a, b) => a.priority - b.priority)`, a stable sort by
 * ascending preference value (a lower value is more preferred, section 5.1
 * of RFC 5321).
 */
module Mx {

  /** One answer of an MX lookup: the exchange host and its preference. */
  datatype MxRecord = MxRecord(exchange: string, priority: nat)

  /** Non-decreasing in priority. */
  ghost predicate Sorted(s: seq<MxRecord>) {
    forall i, j :: 0 <= i < j < |s| ==> s[i].priority <= s[j].priority
  }

  /** The records of `s` whose priority is `p`, in their order in `s`. */
  function Ties(s: seq<MxRecord>, p: nat): seq<MxRecord> {
    if s == [] then []
    else (if s[0].priority == p then [s[0]] else []) + Ties(s[1..], p)
  }

  /**
   * `t` is `s` reordered only across different priorities: for every
   * priority, the records holding it appear in the same order in both. This
   * is what a stable sort by priority promises besides sortedness.
   */
  ghost predicate SameTies(s: seq<MxRecord>, t: seq<MxRecord>) {
    forall p: nat :: Ties(s, p) == Ties(t, p)
  }

  lemma {:induction false} TiesAppend(a: seq<MxRecord>, b: seq<MxRecord>, p: nat)
    ensures Ties(a + b, p) == Ties(a, p) + Ties(b, p)
  {
    if a != [] {
      assert (a + b)[1..] == a[1..] + b;
      TiesAppend(a[1..], b, p);
    } else {
      assert a + b == b;
    }
  }

  /** A record no later than any record of a sorted sequence may go in front of it. */
  lemma ConsSorted(y: MxRecord, t: seq<MxRecord>)
    requires Sorted(t)
    requires forall j :: 0 <= j < |t| ==> y.priority <= t[j].priority
    ensures Sorted([y] + t)
  {
    forall i, j | 0 <= i < j < |t| + 1
      ensures ([y] + t)[i].priority <= ([y] + t)[j].priority
    {
      if i > 0 {
        assert ([y] + t)[i] == t[i - 1] && ([y] + t)[j] == t[j - 1];
      }
    }
  }

  /**
   * `x` placed before the first record of `s` whose priority is not smaller,
   * so that `x` precedes the records it ties with.
   */
  function Insert(x: MxRecord, s: seq<MxRecord>): (r: seq<MxRecord>)
    requires Sorted(s)
    ensures Sorted(r)
    ensures |r| == |s| + 1 && (r[0] == x || (s != [] && r[0] == s[0]))
  {
    if s == [] || x.priority <= s[0].priority then
      ConsSorted(x, s);
      [x] + s
    else
      var t := Insert(x, s[1..]);
      assert forall j :: 0 <= j < |t| ==> t[0].priority <= t[j].priority;
      ConsSorted(s[0], t);
      assert s == [s[0]] + s[1..];
      [s[0]] + t
  }

  /** Inserting keeps, priority by priority, the order of `[x] + s`. */
  lemma {:induction false} InsertTies(x: MxRecord, s: seq<MxRecord>, p: nat)
    requires Sorted(s)
    ensures Ties(Insert(x, s), p) == Ties([x] + s, p)
  {
    if s != [] && x.priority > s[0].priority {
      var rest := Insert(x, s[1..]);
      InsertTies(x, s[1..], p);
      TiesAppend([s[0]], rest, p);
      TiesAppend([x], s[1..], p);
      TiesAppend([x], s, p);
      TiesAppend([s[0]], s[1..], p);
      assert [s[0]] + s[1..] == s;
      assert Ties([s[0]], p) == [] || Ties([x], p) == [];
    }
  }

  /** The stable sort of the records by ascending priority (insertion sort). */
  function SortByPriority(s: seq<MxRecord>): (r: seq<MxRecord>)
    ensures Sorted(r)
    ensures |r| == |s|
  {
    if s == [] then [] else Insert(s[0], SortByPriority(s[1..]))
  }

  /** The sort is stable: records of equal priority keep their resolver order. */
  lemma {:induction false} SortByPriorityStable(s: seq<MxRecord>)
    ensures SameTies(SortByPriority(s), s)
  {
    if s != [] {
      SortByPriorityStable(s[1..]);
      var sorted := SortByPriority(s[1..]);
      forall p: nat ensures Ties(SortByPriority(s), p) == Ties(s, p) {
        InsertTies(s[0], sorted, p);
        TiesAppend([s[0]], sorted, p);
        TiesAppend([s[0]], s[1..], p);
        assert [s[0]] + s[1..] == s;
      }
    }
  }

  /** A record occurs in `s` as often as it occurs among the ties of its priority. */
  lemma {:induction false} CountInTies(s: seq<MxRecord>, x: MxRecord)
    ensures multiset(s)[x] == multiset(Ties(s, x.priority))[x]
  {
    if s != [] {
      CountInTies(s[1..], x);
      assert s == [s[0]] + s[1..];
    }
  }

  /** Keeping the ties means keeping the records: the result is a permutation. */
  lemma SameTiesPermutation(s: seq<MxRecord>, t: seq<MxRecord>)
    requires SameTies(s, t)
    ensures multiset(s) == multiset(t)
  {
    forall x ensures multiset(s)[x] == multiset(t)[x] {
      CountInTies(s, x);
      CountInTies(t, x);
    }
  }

  /**
   * When two sequences have the same ties and the same suffix from `k` on,
   * their prefixes up to `k` have the same ties too.
   */
  lemma SameTiesPrefix(s: seq<MxRecord>, t: seq<MxRecord>, k: nat)
    requires k <= |s| && k <= |t| && s[k..] == t[k..] && SameTies(s, t)
    ensures SameTies(s[..k], t[..k])
  {
    forall p: nat ensures Ties(s[..k], p) == Ties(t[..k], p) {
      assert s == s[..k] + s[k..] && t == t[..k] + t[k..];
      TiesAppend(s[..k], s[k..], p);
      TiesAppend(t[..k], t[k..], p);
      var x, y, z := Ties(s[..k], p), Ties(t[..k], p), Ties(s[k..], p);
      assert x + z == y + z;
      assert x == (x + z)[..|x|] && y == (y + z)[..|y|];
    }
  }

  /** No record of `s` has priority `p` when all of them have a larger one. */
  lemma {:induction false} TiesAbove(s: seq<MxRecord>, p: nat)
    requires forall i :: 0 <= i < |s| ==> s[i].priority > p
    ensures Ties(s, p) == []
  {
    if s != [] {
      TiesAbove(s[1..], p);
    }
  }

  /** Only the empty sequence has the same ties as the empty sequence. */
  lemma SameTiesAsEmpty(s: seq<MxRecord>, t: seq<MxRecord>)
    requires SameTies(s, t) && s == []
    ensures t == []
  {
    if t != [] {
      TiesOfHead(t);
      assert false;
    }
  }

  /** The first record of a non-empty sequence opens the ties of its priority. */
  lemma TiesOfHead(t: seq<MxRecord>)
    ensures t != [] ==> Ties(t, t[0].priority) == [t[0]] + Ties(t[1..], t[0].priority)
  {
  }

  /**
   * Two non-empty sorted sequences with the same ties start with the same
   * record, and what follows it again has the same ties.
   */
  lemma SortedSameHead(s: seq<MxRecord>, t: seq<MxRecord>)
    requires Sorted(s) && Sorted(t) && SameTies(s, t) && s != [] && t != []
    ensures s[0] == t[0] && SameTies(s[1..], t[1..])
  {
    var m, n := s[0].priority, t[0].priority;
    if m < n {
      TiesAbove(t, m);
      assert false;
    } else if n < m {
      TiesAbove(s, n);
      assert false;
    }
    assert Ties(s, m) == [s[0]] + Ties(s[1..], m);
    assert Ties(t, m) == [t[0]] + Ties(t[1..], m);
    assert s[0] == Ties(s, m)[0] == Ties(t, m)[0] == t[0];
    forall p: nat ensures Ties(s[1..], p) == Ties(t[1..], p) {
      assert Ties(s, p) == Ties(t, p);
      if p != m {
        assert Ties(s[1..], p) == Ties(s, p);
        assert Ties(t[1..], p) == Ties(t, p);
      } else {
        assert Ties(s[1..], p) == Ties(s, m)[1..];
        assert Ties(t[1..], p) == Ties(t, m)[1..];
      }
    }
  }

  /**
   * Sortedness and stability together fix the result: two sorted sequences
   * with the same records in the same order per priority are equal. So any
   * stable sort by priority produces exactly SortByPriority's answer.
   */
  lemma {:induction false} SortedUnique(s: seq<MxRecord>, t: seq<MxRecord>)
    requires Sorted(s) && Sorted(t) && SameTies(s, t)
    ensures s == t
    decreases |s|
  {
    if s == [] {
      SameTiesAsEmpty(s, t);
    } else if t == [] {
      SameTiesAsEmpty(t, s);
    } else {
      SortedSameHead(s, t);
      SortedUnique(s[1..], t[1..]);
      assert s == [s[0]] + s[1..];
      assert t == [t[0]] + t[1..];
    }
  }

  /** Two records of different priority never tie, so their order is no tie's order. */
  lemma TiesPair(y: MxRecord, z: MxRecord, p: nat)
    requires y.priority != z.priority
    ensures Ties([y, z], p) == Ties([z, y], p)
  {
    assert [y, z][1..] == [z];
    assert [z, y][1..] == [y];
  }

  /** Exchanging two neighbours of different priority keeps every tie in order. */
  lemma SwapKeepsTies(front: seq<MxRecord>, y: MxRecord, z: MxRecord, back: seq<MxRecord>)
    requires y.priority != z.priority
    ensures SameTies(front + [z, y] + back, front + [y, z] + back)
  {
    forall p: nat ensures Ties(front + [z, y] + back, p) == Ties(front + [y, z] + back, p) {
      TiesAppend(front + [z, y], back, p);
      TiesAppend(front + [y, z], back, p);
      TiesAppend(front, [z, y], p);
      TiesAppend(front, [y, z], p);
      TiesPair(y, z, p);
    }
  }

  /** Exchanges `a[j - 1]` and `a[j]`, which have different priorities. */
  method SwapNeighbours(a: array<MxRecord>, j: int)
    requires 0 < j < a.Length && a[j - 1].priority != a[j].priority
    modifies a
    ensures a[j - 1] == old(a[j]) && a[j] == old(a[j - 1])
    ensures forall k :: 0 <= k < a.Length && k != j - 1 && k != j ==> a[k] == old(a[k])
    ensures SameTies(a[..], old(a[..]))
  {
    ghost var before := a[..];
    a[j - 1], a[j] := a[j], a[j - 1];
    assert before == before[..j - 1] + [before[j - 1], before[j]] + before[j + 1..];
    assert a[..] == before[..j - 1] + [before[j], before[j - 1]] + before[j + 1..];
    SwapKeepsTies(before[..j - 1], before[j - 1], before[j], before[j + 1..]);
  }

  /**
   * One step of insertion sort on a prefix that is already sorted: `a[i]`
   * moves left past the records of larger priority before it, one adjacent
   * exchange at a time, so it never passes a record it ties with. The
   * records after `a[i]` stay where they are, so the new prefix holds the
   * old one, reordered only across different priorities.
   */
  method InsertionStep(a: array<MxRecord>, i: int)
    requires 0 <= i < a.Length && Sorted(a[..i])
    modifies a
    ensures Sorted(a[..i + 1])
    ensures a[i + 1..] == old(a[i + 1..])
    ensures SameTies(a[..i + 1], old(a[..i + 1]))
    ensures SameTies(a[..], old(a[..]))
  {
    var j := i;
    while j > 0 && a[j - 1].priority > a[j].priority
      invariant 0 <= j <= i
      invariant forall k, m :: 0 <= k < m <= i && k != j && m != j ==> a[k].priority <= a[m].priority
      invariant forall m :: j < m <= i ==> a[j].priority < a[m].priority
      invariant forall k :: i < k < a.Length ==> a[k] == old(a[k])
      invariant SameTies(a[..], old(a[..]))
    {
      SwapNeighbours(a, j);
      j := j - 1;
    }
    assert a[i + 1..] == old(a[i + 1..]);
    SameTiesPrefix(a[..], old(a[..]), i + 1);
    assert a[..][..i + 1] == a[..i + 1] && old(a[..])[..i + 1] == old(a[..i + 1]);
    forall k, m | 0 <= k < m <= i
      ensures a[k].priority <= a[m].priority
    {
      if m == j && k < j - 1 {
        assert a[k].priority <= a[j - 1].priority;
      }
    }
  }

  /**
   * The in-place sort of the resolved records. It ends in the one order that
   * is sorted and keeps ties in resolver order, so it agrees with
   * SortByPriority.
   */
  method SortInPlace(a: array<MxRecord>)
    modifies a
    ensures a[..] == SortByPriority(old(a[..]))
  {
    var i := 0;
    while i < a.Length
      invariant 0 <= i <= a.Length
      invariant Sorted(a[..i])
      invariant SameTies(a[..], old(a[..]))
    {
      InsertionStep(a, i);
      i := i + 1;
    }
    assert a[..a.Length] == a[..];
    SortByPriorityStable(old(a[..]));
    SortedUnique(a[..], SortByPriority(old(a[..])));
  }
}
