/**
 * The read-only queries of routes/booking.js over the booking collection:
 * `countDocuments({ status })` and the top-resorts aggregation pipeline
 * (`$match` confirmed, `$group` by resortId, `$sort` by count descending,
 * `$limit` 3).
 */
module Reporting {
  import opened Bookings

  /** `Booking.countDocuments({ status: s })`. */
  function CountByStatus(docs: seq<Booking>, s: Status): (n: nat)
    ensures n <= |docs|
  {
    if docs == [] then 0
    else CountByStatus(docs[..|docs| - 1], s) + (if docs[|docs| - 1].status == s then 1 else 0)
  }

  /** The positions of the bookings that have status `s`. */
  ghost function WithStatusAt(docs: seq<Booking>, s: Status): set<nat>
  {
    set k | 0 <= k < |docs| && docs[k].status == s
  }

  /** The count is the number of stored bookings that have that status. */
  lemma {:induction false} CountIsCardinality(docs: seq<Booking>, s: Status)
    ensures CountByStatus(docs, s) == |WithStatusAt(docs, s)|
  {
    if docs != [] {
      var init := docs[..|docs| - 1];
      CountIsCardinality(init, s);
      var last := |docs| - 1;
      if docs[last].status == s {
        assert WithStatusAt(docs, s) == WithStatusAt(init, s) + {last};
      } else {
        assert WithStatusAt(docs, s) == WithStatusAt(init, s);
      }
    }
  }

  /** Appending a booking adds one to the count of its own status only. */
  lemma CountAfterAppend(docs: seq<Booking>, b: Booking, s: Status)
    ensures CountByStatus(docs + [b], s) == CountByStatus(docs, s) + (if b.status == s then 1 else 0)
  {
    assert (docs + [b])[..|docs|] == docs;
  }

  /** A transition moves one booking from the count of its old status to that of its new one. */
  lemma {:induction false} CountAfterTransition(docs: seq<Booking>, id: BookingId, t: Status, s: Status)
    requires id < |docs|
    ensures CountByStatus(WithStatus(docs, id, t), s) ==
            CountByStatus(docs, s) - (if docs[id].status == s then 1 else 0) + (if t == s then 1 else 0)
  {
    var after := WithStatus(docs, id, t);
    var last := |docs| - 1;
    var init := docs[..last];
    if id == last {
      assert after[..last] == init;
    } else {
      assert after[..last] == WithStatus(init, id, t);
      CountAfterTransition(init, id, t, s);
    }
  }

  /** Every booking is counted under exactly one status. */
  lemma {:induction false} CountsPartition(docs: seq<Booking>)
    ensures CountByStatus(docs, Pending) + CountByStatus(docs, Confirmed) + CountByStatus(docs, Cancelled) == |docs|
  {
    if docs != [] {
      CountsPartition(docs[..|docs| - 1]);
    }
  }

  /** One `$group` output document: a resort and its number of bookings. */
  datatype ResortCount = ResortCount(resortId: string, count: nat)

  /** `{ $limit: 3 }`. */
  const TopLimit: nat := 3

  /** Reference definition: the number of confirmed bookings of a resort. */
  function ConfirmedFor(docs: seq<Booking>, rid: string): nat
  {
    if docs == [] then 0
    else
      var b := docs[|docs| - 1];
      ConfirmedFor(docs[..|docs| - 1], rid) + (if b.status == Confirmed && b.resortId == rid then 1 else 0)
  }

  /** `{ $match: { status: 'confirmed' } }`, keeping collection order. */
  function MatchConfirmed(docs: seq<Booking>): (r: seq<Booking>)
    ensures forall b :: b in r ==> b in docs && b.status == Confirmed
    ensures forall b :: b in docs && b.status == Confirmed ==> b in r
    ensures |r| == CountByStatus(docs, Confirmed)
  {
    if docs == [] then []
    else
      var init := MatchConfirmed(docs[..|docs| - 1]);
      var b := docs[|docs| - 1];
      assert forall c :: c in docs ==> c in docs[..|docs| - 1] || c == b;
      if b.status == Confirmed then init + [b] else init
  }

  /** A new booking that is not confirmed leaves the top-resorts report as it was. */
  lemma UnconfirmedBookingLeavesReport(docs: seq<Booking>, b: Booking)
    requires b.status != Confirmed
    ensures TopResorts(docs + [b]) == TopResorts(docs)
  {
    assert (docs + [b])[..|docs|] == docs;
  }

  /** A transition changes a resort's confirmed count only when it enters or leaves the confirmed status. */
  lemma {:induction false} ConfirmedAfterTransition(docs: seq<Booking>, id: BookingId, t: Status, rid: string)
    requires id < |docs|
    ensures ConfirmedFor(WithStatus(docs, id, t), rid) ==
            ConfirmedFor(docs, rid)
            - (if docs[id].status == Confirmed && docs[id].resortId == rid then 1 else 0)
            + (if t == Confirmed && docs[id].resortId == rid then 1 else 0)
  {
    var after := WithStatus(docs, id, t);
    var last := |docs| - 1;
    var init := docs[..last];
    if id == last {
      assert after[..last] == init;
    } else {
      assert after[..last] == WithStatus(init, id, t);
      ConfirmedAfterTransition(init, id, t, rid);
    }
  }

  /** The number of documents of a resort. */
  function CountResort(docs: seq<Booking>, rid: string): nat
  {
    if docs == [] then 0
    else CountResort(docs[..|docs| - 1], rid) + (if docs[|docs| - 1].resortId == rid then 1 else 0)
  }

  /** Counting a resort's documents after `$match` counts its confirmed bookings. */
  lemma {:induction false} MatchThenCount(docs: seq<Booking>, rid: string)
    ensures CountResort(MatchConfirmed(docs), rid) == ConfirmedFor(docs, rid)
  {
    if docs != [] {
      var init := docs[..|docs| - 1];
      var b := docs[|docs| - 1];
      MatchThenCount(init, rid);
      if b.status == Confirmed {
        assert (MatchConfirmed(init) + [b])[..|MatchConfirmed(init)|] == MatchConfirmed(init);
      }
    }
  }

  /** The count of the first entry for a resort, or 0 when it has none. */
  function CountOf(g: seq<ResortCount>, rid: string): nat
  {
    if g == [] then 0 else if g[0].resortId == rid then g[0].count else CountOf(g[1..], rid)
  }

  function Ids(g: seq<ResortCount>): set<string>
  {
    set e | e in g :: e.resortId
  }

  predicate DistinctIds(g: seq<ResortCount>)
  {
    forall i, j :: 0 <= i < j < |g| ==> g[i].resortId != g[j].resortId
  }

  predicate Positive(g: seq<ResortCount>)
  {
    forall e :: e in g ==> e.count >= 1
  }

  /** An entry followed by a list without its resort has distinct resorts when the list has. */
  lemma DistinctCons(e: ResortCount, g: seq<ResortCount>)
    requires e.resortId !in Ids(g) && DistinctIds(g)
    ensures DistinctIds([e] + g)
  {
    var r := [e] + g;
    forall i, j | 0 <= i < j < |r| ensures r[i].resortId != r[j].resortId {
      if i == 0 {
        assert r[j] in g;
      } else {
        assert r[i] == g[i - 1] && r[j] == g[j - 1];
      }
    }
  }

  /** In a list of distinct resorts, an entry's count is the count recorded for its resort. */
  lemma {:induction false} CountOfMember(g: seq<ResortCount>, e: ResortCount)
    requires DistinctIds(g) && e in g
    ensures CountOf(g, e.resortId) == e.count
  {
    if g[0] != e {
      assert e in g[1..];
      SplitFirst(g);
      CountOfMember(g[1..], e);
    }
  }

  /** A list's resorts are its first entry's and its tail's; distinct resorts stay distinct in the tail. */
  lemma SplitFirst(g: seq<ResortCount>)
    requires g != []
    ensures Ids(g) == {g[0].resortId} + Ids(g[1..])
    ensures DistinctIds(g) ==> DistinctIds(g[1..]) && g[0].resortId !in Ids(g[1..])
  {
    assert forall e :: e in g ==> e == g[0] || e in g[1..];
    if DistinctIds(g) {
      forall i, j | 0 <= i < j < |g[1..]| ensures g[1..][i].resortId != g[1..][j].resortId {
        assert g[1..][i] == g[i + 1] && g[1..][j] == g[j + 1];
      }
      forall e | e in g[1..] ensures e.resortId != g[0].resortId {
        var j :| 0 <= j < |g[1..]| && g[1..][j] == e;
        assert e == g[j + 1];
      }
    }
  }

  /** Incrementing the first entry keeps the resorts and their distinctness. */
  lemma BumpFirst(g: seq<ResortCount>)
    requires g != []
    ensures var r := [g[0].(count := g[0].count + 1)] + g[1..];
            Ids(r) == Ids(g) && (DistinctIds(g) ==> DistinctIds(r))
  {
    var r := [g[0].(count := g[0].count + 1)] + g[1..];
    SplitFirst(g);
    SplitFirst(r);
    assert r[1..] == g[1..];
    if DistinctIds(g) {
      DistinctCons(r[0], g[1..]);
      assert [r[0]] + g[1..] == r;
    }
  }

  /** One more booking for `rid`: increment its entry, or append a new entry with count 1. */
  function Bump(g: seq<ResortCount>, rid: string): (r: seq<ResortCount>)
    ensures forall x :: CountOf(r, x) == CountOf(g, x) + (if x == rid then 1 else 0)
    ensures Ids(r) == Ids(g) + {rid}
    ensures DistinctIds(g) ==> DistinctIds(r)
    ensures Positive(g) ==> Positive(r)
  {
    if g == [] then [ResortCount(rid, 1)]
    else if g[0].resortId == rid then
      BumpFirst(g);
      [g[0].(count := g[0].count + 1)] + g[1..]
    else
      var tail := Bump(g[1..], rid);
      SplitFirst(g);
      var r := [g[0]] + tail;
      SplitFirst(r);
      assert r[1..] == tail;
      assert DistinctIds(g) ==> DistinctIds(r) by {
        if DistinctIds(g) { DistinctCons(g[0], tail); }
      }
      r
  }

  /**
   * `{ $group: { _id: "$resortId", count: { $sum: 1 } } }`: one entry per
   * resort, in order of first appearance, counting its documents.
   */
  function Group(docs: seq<Booking>): (g: seq<ResortCount>)
    ensures forall x :: CountOf(g, x) == CountResort(docs, x)
    ensures forall x :: x in Ids(g) <==> CountResort(docs, x) > 0
    ensures DistinctIds(g) && Positive(g)
  {
    if docs == [] then []
    else
      var init := Group(docs[..|docs| - 1]);
      var r := Bump(init, docs[|docs| - 1].resortId);
      assert forall x :: x in Ids(init) ==> CountOf(init, x) > 0 by {
        forall x | x in Ids(init) ensures CountOf(init, x) > 0 {
          var e :| e in init && e.resortId == x;
          CountOfMember(init, e);
        }
      }
      r
  }

  /** Non-increasing counts. */
  predicate SortedByCount(g: seq<ResortCount>)
  {
    forall i, j :: 0 <= i < j < |g| ==> g[i].count >= g[j].count
  }

  /** Where `e` goes in a list sorted by count: after every entry with a larger count. */
  function InsertPos(e: ResortCount, s: seq<ResortCount>): (k: nat)
    ensures k <= |s|
    ensures forall i :: 0 <= i < k ==> s[i].count > e.count
    ensures k < |s| ==> s[k].count <= e.count
  {
    if s == [] || s[0].count <= e.count then 0 else InsertPos(e, s[1..]) + 1
  }

  /** Inserting at `InsertPos` keeps the list sorted and adds exactly `e`. */
  lemma InsertAtPos(e: ResortCount, s: seq<ResortCount>)
    requires SortedByCount(s)
    ensures var k := InsertPos(e, s);
            SortedByCount(s[..k] + [e] + s[k..]) &&
            multiset(s[..k] + [e] + s[k..]) == multiset(s) + multiset{e}
  {
    var k := InsertPos(e, s);
    InsertAtSorted(e, s, k);
    InsertMultiset(e, s, k);
  }

  /** Putting `e` at position `k` of `s` adds exactly `e` to its entries. */
  lemma InsertMultiset(e: ResortCount, s: seq<ResortCount>, k: nat)
    requires k <= |s|
    ensures multiset(s[..k] + [e] + s[k..]) == multiset(s) + multiset{e}
  {
    var a, b := s[..k], s[k..];
    assert a + b == s;
    calc {
      multiset(a + [e] + b);
      multiset(a + [e]) + multiset(b);
      multiset(a) + multiset{e} + multiset(b);
      multiset(a + b) + multiset{e};
    }
  }

  /** Placing `e` after the larger counts and before the rest keeps a sorted list sorted. */
  lemma InsertAtSorted(e: ResortCount, s: seq<ResortCount>, k: nat)
    requires SortedByCount(s) && k <= |s|
    requires forall i :: 0 <= i < k ==> s[i].count > e.count
    requires k < |s| ==> s[k].count <= e.count
    ensures SortedByCount(s[..k] + [e] + s[k..])
  {
    var r := s[..k] + [e] + s[k..];
    assert forall i :: k < i < |r| ==> r[i] == s[i - 1];
    assert forall i :: 0 <= i < k ==> r[i] == s[i];
    forall i, j | 0 <= i < j < |r| ensures r[i].count >= r[j].count {
      if j == k {
        assert r[i] == s[i];
      } else if i == k {
        assert r[j] == s[j - 1];
      } else if i < k && j > k {
        assert r[i] == s[i] && r[j] == s[j - 1];
      }
    }
  }

  function Insert(e: ResortCount, s: seq<ResortCount>): (r: seq<ResortCount>)
    requires SortedByCount(s)
    ensures SortedByCount(r)
    ensures multiset(r) == multiset(s) + multiset{e}
  {
    InsertAtPos(e, s);
    var k := InsertPos(e, s);
    s[..k] + [e] + s[k..]
  }

  /** `{ $sort: { count: -1 } }`: an insertion sort, descending by count. */
  function SortByCount(g: seq<ResortCount>): (r: seq<ResortCount>)
    ensures SortedByCount(r)
    ensures multiset(r) == multiset(g)
  {
    if g == [] then []
    else
      assert g == [g[0]] + g[1..];
      Insert(g[0], SortByCount(g[1..]))
  }

  /** Sorting keeps the entries, so it keeps the set of resorts. */
  lemma SortKeepsIds(g: seq<ResortCount>)
    ensures Ids(SortByCount(g)) == Ids(g)
    ensures forall e :: e in SortByCount(g) <==> e in g
  {
    var r := SortByCount(g);
    assert forall e :: e in r <==> e in multiset(r);
    assert forall e :: e in g <==> e in multiset(g);
  }

  /** Inserting an entry for a resort not yet listed keeps the resorts distinct. */
  lemma InsertKeepsDistinct(e: ResortCount, s: seq<ResortCount>)
    requires SortedByCount(s) && DistinctIds(s) && e.resortId !in Ids(s)
    ensures DistinctIds(Insert(e, s))
  {
    var k := InsertPos(e, s);
    var r := Insert(e, s);
    assert r == s[..k] + [e] + s[k..];
    forall i, j | 0 <= i < j < |r| ensures r[i].resortId != r[j].resortId {
      var si := if i < k then i else i - 1;
      var sj := if j < k then j else j - 1;
      if i == k {
        assert r[j] == s[sj] && s[sj] in s;
      } else if j == k {
        assert r[i] == s[si] && s[si] in s;
      } else {
        assert r[i] == s[si] && r[j] == s[sj] && si < sj;
      }
    }
  }

  /** Sorting a list of distinct resorts keeps them distinct. */
  lemma {:induction false} SortKeepsDistinct(g: seq<ResortCount>)
    requires DistinctIds(g)
    ensures DistinctIds(SortByCount(g))
  {
    if g != [] {
      SplitFirst(g);
      SortKeepsDistinct(g[1..]);
      SortKeepsIds(g[1..]);
      InsertKeepsDistinct(g[0], SortByCount(g[1..]));
    }
  }

  /**
   * The top-resorts pipeline: confirmed bookings, grouped by resort, sorted
   * by count descending, at most three. Resorts with equal counts come out
   * in the collection order of each resort's first confirmed booking;
   * MongoDB leaves that order unspecified.
   */
  function TopResorts(docs: seq<Booking>): (r: seq<ResortCount>)
    ensures |r| <= TopLimit && SortedByCount(r)
  {
    var sorted := SortByCount(Group(MatchConfirmed(docs)));
    if |sorted| <= TopLimit then sorted else sorted[..TopLimit]
  }

  /** Every entry of the grouped confirmed bookings counts that resort's confirmed bookings. */
  lemma GroupedCounts(docs: seq<Booking>, e: ResortCount)
    requires e in Group(MatchConfirmed(docs))
    ensures e.count == ConfirmedFor(docs, e.resortId) && e.count >= 1
  {
    var g := Group(MatchConfirmed(docs));
    CountOfMember(g, e);
    MatchThenCount(docs, e.resortId);
  }

  /** The report is a prefix of the sorted groups, of length at most three. */
  lemma TopIsPrefix(docs: seq<Booking>)
    ensures var sorted := SortByCount(Group(MatchConfirmed(docs)));
            var r := TopResorts(docs);
            |r| <= TopLimit && |r| <= |sorted| && r == sorted[..|r|] &&
            (|r| < TopLimit ==> |r| == |sorted|)
  {
  }

  /** Each listed resort carries its number of confirmed bookings. */
  lemma TopCounts(docs: seq<Booking>, i: nat)
    requires i < |TopResorts(docs)|
    ensures var r := TopResorts(docs);
            r[i].count == ConfirmedFor(docs, r[i].resortId) && r[i].count >= 1
  {
    var g := Group(MatchConfirmed(docs));
    var sorted := SortByCount(g);
    var r := TopResorts(docs);
    TopIsPrefix(docs);
    SortKeepsIds(g);
    assert r[i] == sorted[i] && sorted[i] in g;
    GroupedCounts(docs, r[i]);
  }

  /** A resort with confirmed bookings that is not listed follows three listed ones and has no more bookings. */
  lemma TopLeftOut(docs: seq<Booking>, rid: string)
    requires rid !in Ids(TopResorts(docs)) && ConfirmedFor(docs, rid) > 0
    ensures var r := TopResorts(docs);
            |r| == TopLimit && ConfirmedFor(docs, rid) <= r[|r| - 1].count
  {
    var g := Group(MatchConfirmed(docs));
    var sorted := SortByCount(g);
    var r := TopResorts(docs);
    TopIsPrefix(docs);
    var e, m := LocateResort(docs, rid);
    PastThePrefix(sorted, |r|, m);
    assert ConfirmedFor(docs, rid) == e.count by {
      assert e in g by { SortKeepsIds(g); }
      GroupedCounts(docs, e);
    }
  }

  /** An entry whose resort is missing from a prefix of a sorted list lies past it and counts no more than its last entry. */
  lemma PastThePrefix(s: seq<ResortCount>, n: nat, m: nat)
    requires SortedByCount(s) && n <= |s| && m < |s| && s[m].resortId !in Ids(s[..n])
    ensures m >= n && (n > 0 ==> s[m].count <= s[n - 1].count)
  {
    assert forall i :: 0 <= i < n ==> s[..n][i] == s[i] && s[..n][i] in s[..n];
  }

  /** A resort with confirmed bookings has an entry in the sorted groups. */
  lemma LocateResort(docs: seq<Booking>, rid: string) returns (e: ResortCount, m: nat)
    requires ConfirmedFor(docs, rid) > 0
    ensures var sorted := SortByCount(Group(MatchConfirmed(docs)));
            m < |sorted| && sorted[m] == e && e.resortId == rid
  {
    var g := Group(MatchConfirmed(docs));
    var sorted := SortByCount(g);
    MatchThenCount(docs, rid);
    SortKeepsIds(g);
    assert rid in Ids(sorted);
    e :| e in sorted && e.resortId == rid;
    m :| 0 <= m < |sorted| && sorted[m] == e;
  }

  /** A prefix of a sorted list of distinct resorts is sorted and distinct. */
  lemma PrefixKeeps(s: seq<ResortCount>, n: nat)
    requires n <= |s| && SortedByCount(s) && DistinctIds(s)
    ensures SortedByCount(s[..n]) && DistinctIds(s[..n])
  {
  }

  /**
   * What the top-resorts report promises: at most three distinct resorts, in
   * non-increasing order of count, each with its number of confirmed
   * bookings; a resort with confirmed bookings that is left out comes after
   * three listed ones and has no more bookings than the last of them.
   */
  lemma TopResortsCorrect(docs: seq<Booking>)
    ensures var r := TopResorts(docs);
            |r| <= TopLimit && DistinctIds(r) && SortedByCount(r) &&
            (forall i :: 0 <= i < |r| ==> r[i].count == ConfirmedFor(docs, r[i].resortId) && r[i].count >= 1) &&
            (forall rid :: rid !in Ids(r) && ConfirmedFor(docs, rid) > 0 ==>
               |r| == TopLimit && ConfirmedFor(docs, rid) <= r[|r| - 1].count)
  {
    var g := Group(MatchConfirmed(docs));
    var sorted := SortByCount(g);
    var r := TopResorts(docs);
    assert |r| <= TopLimit && DistinctIds(r) && SortedByCount(r) by {
      TopIsPrefix(docs);
      SortKeepsDistinct(g);
      PrefixKeeps(sorted, |r|);
    }
    assert forall i :: 0 <= i < |r| ==> r[i].count == ConfirmedFor(docs, r[i].resortId) && r[i].count >= 1 by {
      forall i | 0 <= i < |r| ensures r[i].count == ConfirmedFor(docs, r[i].resortId) && r[i].count >= 1 {
        TopCounts(docs, i);
      }
    }
    assert forall rid :: rid !in Ids(r) && ConfirmedFor(docs, rid) > 0 ==>
             |r| == TopLimit && ConfirmedFor(docs, rid) <= r[|r| - 1].count by {
      forall rid | rid !in Ids(r) && ConfirmedFor(docs, rid) > 0
        ensures |r| == TopLimit && ConfirmedFor(docs, rid) <= r[|r| - 1].count
      {
        TopLeftOut(docs, rid);
      }
    }
  }
}
