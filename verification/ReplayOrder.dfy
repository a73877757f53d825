/** Where every delivery of a day stands in its log, and which of two ticks of the same time comes first. */
module ReplayOrder {
  import opened Arithmetic
  import opened Replay

  // ---------- deliveries ----------

  /** With n consumers, the j-th of them gets the i-th tick as the (i * n + j)-th delivery. */
  lemma {:induction false} DeliveryAt(ticks: seq<Tick>, consumers: seq<nat>, i: nat, j: nat)
    requires i < |ticks| && j < |consumers|
    ensures |AllDeliveries(ticks, consumers)| == |ticks| * |consumers|
    ensures i * |consumers| + j < |ticks| * |consumers|
    ensures AllDeliveries(ticks, consumers)[i * |consumers| + j] == Delivered(ticks[i], consumers[j])
    decreases |ticks|
  {
    var n, rest := |consumers|, AllDeliveries(ticks[1..], consumers);
    DeliveryCount(ticks[1..], consumers);
    OneRowMore(|ticks| - 1, n);
    if i > 0 {
      DeliveryAt(ticks[1..], consumers, i - 1, j);
      OneRowMore(i - 1, n);
      assert (Deliveries(ticks[0], consumers) + rest)[n + ((i - 1) * n + j)] == rest[(i - 1) * n + j];
    } else {
      AtLeastOne(|ticks|, n);
    }
  }

  lemma {:induction false} DeliveryCount(ticks: seq<Tick>, consumers: seq<nat>)
    ensures |AllDeliveries(ticks, consumers)| == |ticks| * |consumers|
  {
    if ticks != [] {
      DeliveryCount(ticks[1..], consumers);
      OneRowMore(|ticks| - 1, |consumers|);
    }
  }

  lemma OneRowMore(m: nat, n: nat)
    ensures n + m * n == (m + 1) * n
  {
  }

  lemma AtLeastOne(m: nat, n: nat)
    requires m > 0
    ensures m * n >= n
  {
  }

  /** The last second of the day, in milliseconds. */
  lemma LastSecond(ticks: seq<Tick>)
    ensures Horizon([]) == 86399000
    ensures ticks != [] ==> Horizon(ticks) == var t := ticks[|ticks| - 1].timeInMS; if t < 86399000 then 86399000 else t
  {
  }

  // ---------- ticks of the same time ----------

  /** Of two ticks of the same time the first is of the store that arrived later, or of the same store. */
  predicate NewerFirst(t: Tick, u: Tick, ids: seq<nat>) {
    t.timeInMS == u.timeInMS ==>
      forall x, y :: 0 <= x < |ids| && 0 <= y < |ids| && t.store == ids[x] && u.store == ids[y] ==> x >= y
  }

  predicate TiesNewestFirst(ticks: seq<Tick>, ids: seq<nat>) {
    forall p, q :: 0 <= p < q < |ticks| ==> NewerFirst(ticks[p], ticks[q], ids)
  }

  predicate FromBefore(ticks: seq<Tick>, ids: seq<nat>, n: nat)
    requires n <= |ids|
  {
    forall t :: t in ticks ==> t.store in ids[..n]
  }

  lemma {:induction false} MergeTies(a: seq<Tick>, b: seq<Tick>, ids: seq<nat>, n: nat)
    requires n < |ids| && forall i, j :: 0 <= i < j < |ids| ==> ids[i] != ids[j]
    requires TimeSorted(a) && TimeSorted(b) && FromBefore(a, ids, n)
    requires TiesNewestFirst(a, ids) && forall t :: t in b ==> t.store == ids[n]
    requires n + 1 == |ids|
    ensures TiesNewestFirst(Merge(a, b), ids)
    decreases |a| + |b|
  {
    if a == [] {
      OneStore(b, ids, n);
    } else if b != [] {
      if a[0].timeInMS < b[0].timeInMS {
        MergeTies(a[1..], b, ids, n);
        var rest := Merge(a[1..], b);
        forall t | t in rest ensures NewerFirst(a[0], t, ids) {
          MergedFromEither(a[1..], b, t);
          if t in a[1..] {
            var q :| 0 <= q < |a[1..]| && a[1..][q] == t;
            assert NewerFirst(a[0], a[q + 1], ids);
          } else {
            var q :| 0 <= q < |b| && b[q] == t;
          }
        }
        TiesCons(a[0], rest, ids);
      } else {
        MergeTies(a, b[1..], ids, n);
        assert b[0] in b;
        forall t | t in Merge(a, b[1..]) ensures NewerFirst(b[0], t, ids) {
          LastStoreFirst(b[0], t, ids, n);
        }
        TiesCons(b[0], Merge(a, b[1..]), ids);
      }
    }
  }

  lemma OneStore(b: seq<Tick>, ids: seq<nat>, n: nat)
    requires n + 1 == |ids| && forall i, j :: 0 <= i < j < |ids| ==> ids[i] != ids[j]
    requires forall t :: t in b ==> t.store == ids[n]
    ensures TiesNewestFirst(b, ids)
  {
    forall p, q | 0 <= p < q < |b| ensures NewerFirst(b[p], b[q], ids) {
      LastStoreFirst(b[p], b[q], ids, n);
    }
  }

  lemma LastStoreFirst(t: Tick, u: Tick, ids: seq<nat>, n: nat)
    requires n + 1 == |ids| && t.store == ids[n] && forall i, j :: 0 <= i < j < |ids| ==> ids[i] != ids[j]
    ensures NewerFirst(t, u, ids)
  {
  }

  lemma TiesCons(t: Tick, rest: seq<Tick>, ids: seq<nat>)
    requires TiesNewestFirst(rest, ids) && forall u :: u in rest ==> NewerFirst(t, u, ids)
    ensures TiesNewestFirst([t] + rest, ids)
  {
    hide NewerFirst;
  }

  lemma MergedFromEither(a: seq<Tick>, b: seq<Tick>, t: Tick)
    requires t in Merge(a, b)
    ensures t in a || t in b
  {
    MergeContents(a, b);
    assert t in multiset(Merge(a, b));
  }

  /** Whatever stores arrive in whatever order: of ticks of the same time those of the store that arrived last come
      first. */
  lemma {:induction false} LaterStoresFirst(stores: seq<seq<Tick>>, ids: seq<nat>)
    requires OwnTicks(stores, ids) && forall i :: 0 <= i < |stores| ==> TimeSorted(stores[i])
    ensures TiesNewestFirst(MergeAll(stores), ids)
  {
    if stores != [] {
      var n := |stores| - 1;
      var before := MergeAll(stores[..n]);
      LaterStoresFirst(stores[..n], ids[..n]);
      MergeAllSorted(stores[..n]);
      forall t | t in before ensures t.store in ids[..n] {
        MergedTicksComeFrom(stores[..n], t);
        var k :| 0 <= k < n && t in stores[..n][k];
        assert t in stores[k] && ids[..n][k] == ids[k];
      }
      MoreIds(before, ids, n);
      MergeTies(before, stores[n], ids, n);
    }
  }

  lemma MoreIds(ticks: seq<Tick>, ids: seq<nat>, n: nat)
    requires n < |ids| && n + 1 == |ids| && forall i, j :: 0 <= i < j < |ids| ==> ids[i] != ids[j]
    requires TiesNewestFirst(ticks, ids[..n]) && FromBefore(ticks, ids, n)
    ensures TiesNewestFirst(ticks, ids)
  {
    forall p, q | 0 <= p < q < |ticks| ensures NewerFirst(ticks[p], ticks[q], ids) {
      assert NewerFirst(ticks[p], ticks[q], ids[..n]);
      assert ticks[p] in ticks && ticks[q] in ticks;
      forall x, y | 0 <= x < |ids| && 0 <= y < |ids| && ticks[p].store == ids[x] && ticks[q].store == ids[y]
                    && ticks[p].timeInMS == ticks[q].timeInMS
        ensures x >= y
      {
        assert x < n ==> ids[..n][x] == ids[x];
        assert y < n ==> ids[..n][y] == ids[y];
      }
    }
  }
}
