/** The three array algorithms inside `nmxp_raw_stream_manage`, on the array of
    packet pointers: NULL compaction, qsort, and the overlapping shift. */
module RawStreamArrays {
  import opened RawStream
  import opened Sequences

  /** The heap copy that a call makes of the packet it is given. */
  class Copy {
    const data: Packet

    constructor (data: Packet)
      ensures this.data == data
    {
      this.data := data;
    }
  }

  function Data(copies: seq<Copy>): (ps: seq<Packet>)
    ensures |ps| == |copies|
    ensures forall i :: 0 <= i < |ps| ==> ps[i] == copies[i].data
  {
    seq(|copies|, i requires 0 <= i < |copies| => copies[i].data)
  }

  function Used(slot: Copy?): seq<Copy> {
    if slot == null then [] else [slot]
  }

  function NonNull(slots: seq<Copy?>): seq<Copy> {
    if slots == [] then [] else Used(slots[0]) + NonNull(slots[1..])
  }

  lemma {:induction false} NonNullConcat(a: seq<Copy?>, b: seq<Copy?>)
    ensures NonNull(a + b) == NonNull(a) + NonNull(b)
  {
    hide Used;
    if a == [] {
      assert a + b == b;
    } else {
      NonNullConcat(a[1..], b);
      TailOfConcat(a, b);
      Assoc(Used(a[0]), NonNull(a[1..]), NonNull(b));
    }
  }

  lemma {:induction false} NonNullIsAll(a: seq<Copy?>)
    requires forall i :: 0 <= i < |a| ==> a[i] != null
    ensures NonNull(a) == a
  {
    if a != [] {
      NonNullIsAll(a[1..]);
    }
  }

  lemma {:induction false} NonNullCount(a: seq<Copy?>)
    ensures |NonNull(a)| <= |a|
    ensures |NonNull(a)| == |a| <==> forall i :: 0 <= i < |a| ==> a[i] != null
  {
    if a != [] {
      NonNullCount(a[1..]);
    }
  }

  lemma NonNullSkips(a: seq<Copy?>, b: seq<Copy?>)
    ensures NonNull(a + [null] + b) == NonNull(a + b)
  {
    hide NonNull;
    NonNullConcat(a + [null], b);
    NonNullConcat(a, [null]);
    NonNullConcat(a, b);
    NoneUsed();
  }

  lemma NoneUsed()
    ensures NonNull([null]) == []
  {
  }

  /** The inner loop of compaction: slots y+1..m move down by one. */
  method RemoveSlot(a: array<Copy?>, y: nat, m: nat)
    requires y < m <= a.Length
    modifies a
    ensures forall i :: y <= i < m - 1 ==> a[i] == old(a[i + 1])
    ensures forall i :: 0 <= i < a.Length && !(y <= i < m - 1) ==> a[i] == old(a[i])
  {
    for w := y + 1 to m
      invariant forall i :: y <= i < w - 1 ==> a[i] == old(a[i + 1])
      invariant forall i :: 0 <= i < a.Length && !(y <= i < w - 1) ==> a[i] == old(a[i])
    {
      a[w - 1] := a[w];
    }
  }

  lemma SlotRemoved(before: seq<Copy?>, y: nat, after: seq<Copy?>)
    requires y < |before| && before[y] == null && |after| == |before| - 1
    requires forall i :: 0 <= i < y ==> after[i] == before[i]
    requires forall i :: y <= i < |after| ==> after[i] == before[i + 1]
    ensures NonNull(after) == NonNull(before)
  {
    hide NonNull;
    assert before == before[..y] + [null] + before[y + 1..];
    assert after == before[..y] + before[y + 1..];
    NonNullSkips(before[..y], before[y + 1..]);
  }

  /** Slot y, which is NULL, goes; the slot behind the last one keeps the last pointer. */
  method RemoveNull(a: array<Copy?>, y: nat, m: nat)
    requires y < m <= a.Length && a[y] == null
    modifies a
    ensures NonNull(a[..m - 1]) == NonNull(old(a[..m]))
    ensures forall i :: 0 <= i < y || m - 1 <= i < a.Length ==> a[i] == old(a[i])
    ensures y < m - 1 ==> a[m - 2] == old(a[m - 1])
  {
    ghost var before := a[..m];
    RemoveSlot(a, y, m);
    SlotRemoved(before, y, a[..m - 1]);
  }

  /** Removes the NULL slots among the first n, keeping order. What it leaves in the
      slots it gives up is not NULL but the stale last pointer. */
  method Compact(a: array<Copy?>, n: nat) returns (m: nat)
    requires n <= a.Length
    modifies a
    ensures m <= n
    ensures a[..m] == NonNull(old(a[..n]))
    ensures forall i :: m <= i < n ==> a[i] == old(a[n - 1])
    ensures forall i :: n <= i < a.Length ==> a[i] == old(a[i])
  {
    hide NonNull;
    m := n;
    var y := 0;
    while y < m
      invariant y <= m <= n
      invariant NonNull(a[..m]) == NonNull(old(a[..n]))
      invariant forall i :: 0 <= i < y ==> a[i] != null
      invariant y < m ==> a[m - 1] == old(a[n - 1])
      invariant forall i :: m <= i < n ==> a[i] == old(a[n - 1])
      invariant forall i :: n <= i < a.Length ==> a[i] == old(a[i])
      decreases m - y
    {
      if a[y] == null {
        RemoveNull(a, y, m);
        m := m - 1;
      } else {
        y := y + 1;
      }
    }
    NonNullIsAll(a[..m]);
  }

  /** What compaction leaves behind the slots in use. */
  lemma CleanAfter(before: seq<Copy?>, n: nat, after: seq<Copy?>, m: nat)
    requires n <= |before| == |after| && m == |NonNull(before[..n])|
    requires m <= n && forall i :: m <= i < n ==> after[i] == before[n - 1]
    requires forall i :: n <= i < |before| ==> after[i] == before[i]
    ensures (forall i :: m <= i < |after| ==> after[i] == null) <==>
            && (forall i :: n <= i < |before| ==> before[i] == null)
            && ((forall i :: 0 <= i < n ==> before[i] != null) || (n > 0 && before[n - 1] == null))
  {
    NonNullCount(before[..n]);
    hide NonNull;
    assert forall i :: 0 <= i < n ==> before[..n][i] == before[i];
    if m < n {
      assert after[m] == before[n - 1];
    }
  }

  // ----- qsort ----------------------------------------------------------------

  function Insert(c: Copy, s: seq<Copy>): seq<Copy> {
    if s == [] || c.data.seqNo <= s[0].data.seqNo then [c] + s else [s[0]] + Insert(c, s[1..])
  }

  function InsertionSort(s: seq<Copy>): seq<Copy> {
    if s == [] then [] else Insert(s[0], InsertionSort(s[1..]))
  }

  ghost predicate Ordered(s: seq<Copy>) {
    forall i, j :: 0 <= i < j < |s| ==> s[i].data.seqNo <= s[j].data.seqNo
  }

  lemma {:induction false} InsertKeepsAll(c: Copy, s: seq<Copy>)
    ensures multiset(Insert(c, s)) == multiset{c} + multiset(s)
  {
    if s != [] && c.data.seqNo > s[0].data.seqNo {
      InsertKeepsAll(c, s[1..]);
      assert s == [s[0]] + s[1..];
    }
  }

  lemma {:induction false} InsertSorts(c: Copy, s: seq<Copy>)
    requires Ordered(s)
    ensures Ordered(Insert(c, s))
    ensures s != [] ==> Insert(c, s)[0] == c || Insert(c, s)[0] == s[0]
  {
    if s != [] && c.data.seqNo > s[0].data.seqNo {
      InsertSorts(c, s[1..]);
    }
  }

  lemma {:induction false} InsertionSortSorts(s: seq<Copy>)
    ensures Ordered(InsertionSort(s))
    ensures multiset(InsertionSort(s)) == multiset(s)
  {
    if s != [] {
      InsertionSortSorts(s[1..]);
      InsertSorts(s[0], InsertionSort(s[1..]));
      InsertKeepsAll(s[0], InsertionSort(s[1..]));
      assert s == [s[0]] + s[1..];
    }
  }

  /** The C library's qsort: callers know that the result is sorted and has the same
      elements, and nothing about the order of equal ones. */
  method Qsort(a: array<Copy?>, n: nat)
    requires n <= a.Length && forall i :: 0 <= i < n ==> a[i] != null
    modifies a
    ensures forall i :: 0 <= i < n ==> a[i] != null
    ensures Ordered(a[..n])
    ensures multiset(a[..n]) == multiset(old(a[..n]))
    ensures forall i :: n <= i < a.Length ==> a[i] == old(a[i])
  {
    var s: seq<Copy> := a[..n];
    var sorted := InsertionSort(s);
    InsertionSortSorts(s);
    assert |multiset(sorted)| == |multiset(s)|;
    forall i | 0 <= i < n {
      a[i] := sorted[i];
    }
    assert a[..n] == sorted;
  }

  lemma {:induction false} DataMultiset(a: seq<Copy>, b: seq<Copy>)
    requires multiset(a) == multiset(b)
    ensures multiset(Data(a)) == multiset(Data(b))
  {
    if a == [] {
      assert |multiset(b)| == 0;
    } else {
      assert a[0] in multiset(b);
      var k :| 0 <= k < |b| && b[k] == a[0];
      var rest := b[..k] + b[k + 1..];
      HeadOut(a, []);
      TakeOut(b, k);
      Cancel(a[0], multiset(a[1..]), multiset(rest));
      DataMultiset(a[1..], rest);
      HeadOut(Data(a), []);
      TakeOut(Data(b), k);
      assert Data(a)[1..] == Data(a[1..]);
      assert Data(b)[..k] + Data(b)[k + 1..] == Data(rest);
    }
  }
}
