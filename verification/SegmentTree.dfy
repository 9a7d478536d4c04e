/** The compressed index of src/tree_help.c over an integer-keyed tree: runs of nearby keys become
    segments with an array of values, in a tree ordered by the overlap comparator of
    src/lib_svr_common_def.c. */
module SegmentTree {

  /** A key and its value; 0 is the null pointer. */
  datatype Entry = Entry(key: nat, value: int)

  /** `integer_key_segment` and its array. */
  datatype Segment = Segment(begin: nat, end: nat, values: seq<int>)

  /** The nodes of the tree to be replaced, from first to last. */
  predicate Increasing(entries: seq<Entry>) {
    forall i, j :: 0 <= i < j < |entries| ==> entries[i].key < entries[j].key
  }

  /** The value of a key, or null. */
  function Lookup(entries: seq<Entry>, key: nat): int {
    if entries == [] then 0
    else if entries[|entries| - 1].key == key then entries[|entries| - 1].value
    else Lookup(entries[..|entries| - 1], key)
  }

  lemma {:induction false} LookupAt(entries: seq<Entry>, i: nat)
    requires Increasing(entries) && i < |entries|
    ensures Lookup(entries, entries[i].key) == entries[i].value
  {
    if i < |entries| - 1 { LookupAt(entries[..|entries| - 1], i); }
  }

  lemma {:induction false} LookupAbsent(entries: seq<Entry>, key: nat)
    requires forall i :: 0 <= i < |entries| ==> entries[i].key != key
    ensures Lookup(entries, key) == 0
  {
    if entries != [] { LookupAbsent(entries[..|entries| - 1], key); }
  }

  lemma LookupSnoc(entries: seq<Entry>, e: Entry, key: nat)
    ensures Lookup(entries + [e], key) == if key == e.key then e.value else Lookup(entries, key)
  {
    assert (entries + [e])[..|entries|] == entries;
  }

  // --- building

  /** A segment holds, for each key it spans, what the entries say. */
  ghost predicate Tells(s: Segment, entries: seq<Entry>) {
    && s.begin <= s.end && |s.values| == s.end - s.begin + 1
    && forall k :: s.begin <= k <= s.end ==> s.values[k - s.begin] == Lookup(entries, k)
  }

  ghost predicate Apart(segs: seq<Segment>) {
    forall i, j :: 0 <= i < j < |segs| ==> segs[i].end < segs[j].begin
  }

  ghost predicate Covered(key: nat, segs: seq<Segment>) {
    exists i :: 0 <= i < |segs| && segs[i].begin <= key <= segs[i].end
  }

  /** Segments in increasing order that never meet, that tell what the entries say, and miss none. */
  ghost predicate Indexes(segs: seq<Segment>, entries: seq<Entry>) {
    && Apart(segs)
    && (forall i :: 0 <= i < |segs| ==> Tells(segs[i], entries))
    && (forall i :: 0 <= i < |entries| ==> Covered(entries[i].key, segs))
  }

  /** The inner loop: the segment is drawn out to a key, with nulls in between. */
  method Extend(s: Segment, key: nat, value: int) returns (r: Segment)
    requires s.begin <= s.end < key && |s.values| == s.end - s.begin + 1
    ensures r.begin == s.begin && r.end == key && |r.values| == key - s.begin + 1
    ensures r.values[..|s.values|] == s.values && r.values[key - s.begin] == value
    ensures forall j :: |s.values| <= j < |r.values| - 1 ==> r.values[j] == 0
  {
    var end, values := s.end + 1, s.values;
    while end < key
      invariant s.end < end <= key && |values| == end - s.begin
      invariant values[..|s.values|] == s.values
      invariant forall k :: |s.values| <= k < |values| ==> values[k] == 0
      decreases key - end
    {
      values := values + [0];
      end := end + 1;
    }
    r := Segment(s.begin, end, values + [value]);
  }

  lemma Extended(s: Segment, r: Segment, entries: seq<Entry>, e: Entry)
    requires Tells(s, entries) && s.end < e.key && Increasing(entries + [e])
    requires entries != [] && entries[|entries| - 1].key == s.end
    requires r.begin == s.begin && r.end == e.key && |r.values| == e.key - s.begin + 1
    requires r.values[..|s.values|] == s.values && r.values[e.key - s.begin] == e.value
    requires forall j :: |s.values| <= j < |r.values| - 1 ==> r.values[j] == 0
    ensures Tells(r, entries + [e])
  {
    forall k | r.begin <= k <= r.end
      ensures r.values[k - r.begin] == Lookup(entries + [e], k)
    {
      LookupSnoc(entries, e, k);
      if k <= s.end {
        assert r.values[..|s.values|][k - s.begin] == s.values[k - s.begin];
      } else if k < e.key {
        assert (entries + [e])[|entries| - 1] == entries[|entries| - 1];
        forall i | 0 <= i < |entries| ensures entries[i].key != k {
          assert (entries + [e])[i] == entries[i];
        }
        LookupAbsent(entries, k);
      }
    }
  }

  lemma StillTells(s: Segment, entries: seq<Entry>, e: Entry)
    requires Tells(s, entries) && s.end < e.key
    ensures Tells(s, entries + [e])
  {
    forall k | s.begin <= k <= s.end
      ensures s.values[k - s.begin] == Lookup(entries + [e], k)
    {
      LookupSnoc(entries, e, k);
    }
  }

  /** All the segments so far, with the one being drawn out last. */
  ghost predicate Building(segs: seq<Segment>, entries: seq<Entry>) {
    Indexes(segs, entries) && (entries == [] <==> segs == [])
    && (entries != [] ==> segs[|segs| - 1].end == entries[|entries| - 1].key)
  }

  lemma BuildsOn(done: seq<Segment>, s: Segment, r: Segment, entries: seq<Entry>, e: Entry)
    requires Building(done + [s], entries) && entries != [] && Increasing(entries + [e])
    requires r.begin == s.begin && r.end == e.key && Tells(r, entries + [e]) && s.end < e.key
    ensures Building(done + [r], entries + [e])
  {
    hide Lookup;
    var segs, segs', all := done + [s], done + [r], entries + [e];
    assert segs[|done|] == s && segs'[|done|] == r;
    forall i | 0 <= i < |segs'|
      ensures Tells(segs'[i], all)
    {
      if i < |done| {
        assert segs[i] == done[i];
        StillTells(done[i], entries, e);
      }
    }
    forall i | 0 <= i < |all|
      ensures Covered(all[i].key, segs')
    {
      if i < |entries| {
        assert all[i] == entries[i];
        var j :| 0 <= j < |segs| && segs[j].begin <= entries[i].key <= segs[j].end;
        if j < |done| { assert segs'[j] == segs[j]; }
        assert segs'[j].begin <= entries[i].key <= segs'[j].end;
      } else {
        assert segs'[|done|].begin <= e.key <= segs'[|done|].end;
      }
    }
    forall i, j | 0 <= i < j < |segs'|
      ensures segs'[i].end < segs'[j].begin
    {
      assert segs[i].end < segs[j].begin;
    }
  }

  lemma BuildsNew(segs: seq<Segment>, entries: seq<Entry>, e: Entry)
    requires Building(segs, entries) && Increasing(entries + [e])
    requires segs != [] ==> segs[|segs| - 1].end < e.key
    ensures Building(segs + [Segment(e.key, e.key, [e.value])], entries + [e])
  {
    var r := Segment(e.key, e.key, [e.value]);
    var segs', all := segs + [r], entries + [e];
    LookupSnoc(entries, e, e.key);
    hide Lookup;
    forall i | 0 <= i < |segs'|
      ensures Tells(segs'[i], all)
    {
      if i < |segs| {
        assert segs[i].end <= segs[|segs| - 1].end;
        StillTells(segs[i], entries, e);
      }
    }
    forall i | 0 <= i < |all|
      ensures Covered(all[i].key, segs')
    {
      if i < |entries| {
        assert all[i] == entries[i];
        var j :| 0 <= j < |segs| && segs[j].begin <= entries[i].key <= segs[j].end;
        assert segs'[j] == segs[j];
      } else {
        assert segs'[|segs|] == r;
      }
    }
  }

  /** `create_int_seg_tree`, up to the tree its segments go to. */
  method CreateSegments(entries: seq<Entry>, interval: nat) returns (segs: seq<Segment>)
    requires Increasing(entries)
    ensures Indexes(segs, entries)
    ensures Wide(segs, interval)
  {
    segs := [];
    if entries == [] { return; }
    var current := Segment(entries[0].key, entries[0].key, [entries[0].value]);
    assert entries[..1] == [] + [entries[0]];
    BuildsNew([], [], entries[0]);
    assert [] + [current] == [current];
    var n: nat := 1;
    while n < |entries|
      invariant 1 <= n <= |entries|
      invariant Building(segs + [current], entries[..n])
      invariant Wide(segs + [current], interval)
      decreases |entries| - n
    {
      hide Building, Lookup, Wide, Increasing, Tells;
      var e := entries[n];
      assert entries[..n + 1] == entries[..n] + [e];
      NextKey(entries, n);
      LastSegment(segs, current, entries[..n]);
      if e.key - current.end <= interval {
        var r := Extend(current, e.key, e.value);
        Extended(current, r, entries[..n], e);
        BuildsOn(segs, current, r, entries[..n], e);
        WideOn(segs, current, r, interval);
        current := r;
      } else {
        BuildsNew(segs + [current], entries[..n], e);
        WideNew(segs, current, Segment(e.key, e.key, [e.value]), interval);
        segs := segs + [current];
        current := Segment(e.key, e.key, [e.value]);
      }
      n := n + 1;
    }
    assert entries[..n] == entries;
    segs := segs + [current];
  }

  /** Neighbouring segments are further apart than the interval. */
  ghost predicate Wide(segs: seq<Segment>, interval: nat) {
    forall i :: 0 < i < |segs| ==> segs[i - 1].end + interval < segs[i].begin
  }

  lemma WideOn(done: seq<Segment>, s: Segment, r: Segment, interval: nat)
    requires Wide(done + [s], interval) && r.begin == s.begin
    ensures Wide(done + [r], interval)
  {
    forall i | 0 < i <= |done|
      ensures (done + [r])[i - 1].end + interval < (done + [r])[i].begin
    {
      assert (done + [s])[i - 1].end + interval < (done + [s])[i].begin;
    }
  }

  lemma WideNew(done: seq<Segment>, s: Segment, r: Segment, interval: nat)
    requires Wide(done + [s], interval) && s.end + interval < r.begin
    ensures Wide((done + [s]) + [r], interval)
  {
    var all := (done + [s]) + [r];
    forall i | 0 < i < |all|
      ensures all[i - 1].end + interval < all[i].begin
    {
      if i < |all| - 1 { assert (done + [s])[i - 1].end + interval < (done + [s])[i].begin; }
    }
  }

  lemma NextKey(entries: seq<Entry>, n: nat)
    requires Increasing(entries) && 0 < n < |entries|
    ensures entries[..n][|entries[..n]| - 1].key < entries[n].key
    ensures Increasing(entries[..n] + [entries[n]])
  {
    assert entries[..n] + [entries[n]] == entries[..n + 1];
  }

  lemma LastSegment(done: seq<Segment>, s: Segment, entries: seq<Entry>)
    requires Building(done + [s], entries) && entries != []
    ensures Tells(s, entries) && s.end == entries[|entries| - 1].key && (done + [s])[|done|] == s
    ensures s.begin <= s.end && |s.values| == s.end - s.begin + 1
  {
    assert (done + [s])[|done|] == s;
  }

  // --- the order of segments

  /** `integer_key_segment_cmp`: overlapping segments compare equal. */
  function Compare(b1: nat, e1: nat, b2: nat, e2: nat): int {
    if e1 < b2 then -1 else if b1 > e2 then 1 else 0
  }

  /** On segments that do not meet the comparator is the order they lie in. */
  lemma CompareOrders(segs: seq<Segment>, i: nat, j: nat)
    requires Apart(segs) && i < |segs| && j < |segs|
    requires segs[i].begin <= segs[i].end && segs[j].begin <= segs[j].end
    ensures var c := Compare(segs[i].begin, segs[i].end, segs[j].begin, segs[j].end);
            (c < 0 <==> i < j) && (c > 0 <==> i > j) && (c == 0 <==> i == j)
  {
    if i < j { assert segs[i].end < segs[j].begin; }
    if j < i { assert segs[j].end < segs[i].begin; }
  }

  ghost predicate Ranged(segs: seq<Segment>) {
    Apart(segs) && forall i :: 0 <= i < |segs| ==> segs[i].begin <= segs[i].end && |segs[i].values| == segs[i].end - segs[i].begin + 1
  }

  lemma IndexRanged(segs: seq<Segment>, entries: seq<Entry>)
    requires Indexes(segs, entries)
    ensures Ranged(segs)
  {
  }
}
