/** Decoded segments waiting to be written, bounded in size by dropping the largest file. */
module ArticleCache {
  import opened Common
  import opened Sums

  type Key = (nat, nat)

  /** `begin` counts from one. */
  datatype Segment = Segment(begin: nat, data: Bytes)

  datatype Write = Write(offset: nat, data: Bytes)

  type Entries = map<Key, seq<Segment>>

  function Size(segments: seq<Segment>): nat {
    if segments == [] then 0 else Size(segments[..|segments| - 1]) + |segments[|segments| - 1].data|
  }

  function Sizes(entries: Entries): map<Key, nat> {
    map k | k in entries :: Size(entries[k])
  }

  ghost function Stored(entries: Entries): nat {
    Sum(Sizes(entries))
  }

  predicate Largest(entries: Entries, key: Key) {
    key in entries && forall k :: k in entries ==> Size(entries[k]) <= Size(entries[key])
  }

  /** Some entry is at least as large as every other. */
  lemma {:induction false} LargestExists(entries: Entries)
    requires entries != map[]
    ensures exists key :: Largest(entries, key)
    decreases |entries|
  {
    var k :| k in entries;
    var rest := entries - {k};
    if rest == map[] {
      assert forall j :: j in entries ==> j == k || j in rest;
      assert Largest(entries, k);
    } else {
      LargestExists(rest);
      var l :| Largest(rest, l);
      assert forall j :: j in entries ==> j == k || j in rest;
      assert Largest(entries, if Size(entries[l]) < Size(entries[k]) then k else l);
    }
  }

  lemma SizePush(segments: seq<Segment>, segment: Segment)
    ensures Size(segments + [segment]) == Size(segments) + |segment.data|
  {
    assert (segments + [segment])[..|segments|] == segments;
  }

  lemma StoredWithout(entries: Entries, key: Key)
    requires key in entries
    ensures Stored(entries) == Size(entries[key]) + Stored(entries - {key})
  {
    SumWithout(Sizes(entries), key);
    assert Sizes(entries) - {key} == Sizes(entries - {key});
  }

  /** The entries with a segment added to a file. */
  function Added(entries: Entries, key: Key, segment: Segment): Entries {
    entries[key := (if key in entries then entries[key] else []) + [segment]]
  }

  lemma StoredAdded(entries: Entries, key: Key, segment: Segment)
    ensures Stored(Added(entries, key, segment)) == Stored(entries) + |segment.data|
  {
    var added := Added(entries, key, segment);
    SizePush(if key in entries then entries[key] else [], segment);
    StoredWithout(added, key);
    assert added - {key} == entries - {key};
    if key in entries {
      StoredWithout(entries, key);
    } else {
      assert entries - {key} == entries;
    }
  }

  /** Dropping a largest file makes up for the segment that was just added. */
  lemma EvictionSuffices(entries: Entries, key: Key, segment: Segment, victim: Key)
    requires Largest(Added(entries, key, segment), victim)
    ensures Stored(Added(entries, key, segment) - {victim}) <= Stored(entries)
  {
    var added := Added(entries, key, segment);
    StoredAdded(entries, key, segment);
    StoredWithout(added, victim);
    SizePush(if key in entries then entries[key] else [], segment);
    assert Size(added[key]) <= Size(added[victim]);
  }

  /** What flushing a file writes, in the order its segments were stored. */
  function Writes(segments: seq<Segment>): (r: seq<Write>)
    ensures |r| == |segments|
    ensures forall i :: 0 <= i < |r| ==>
              r[i] == Write(Less(segments[i].begin, 1), segments[i].data)
  {
    seq(|segments|, i requires 0 <= i < |segments| => Write(Less(segments[i].begin, 1), segments[i].data))
  }

  /** The entries after segments of one file were stored, one after another. */
  function AllAdded(entries: Entries, key: Key, segments: seq<Segment>): Entries {
    if segments == [] then entries
    else Added(AllAdded(entries, key, segments[..|segments| - 1]), key, segments[|segments| - 1])
  }

  /** A file is written in the order its segments came, each at its place counted from one, and no other file is touched. */
  lemma {:induction false} WrittenAsStored(entries: Entries, key: Key, segments: seq<Segment>)
    requires key !in entries && segments != []
    ensures var after := AllAdded(entries, key, segments);
            && key in after && after - {key} == entries && |Writes(after[key])| == |segments|
            && forall i :: 0 <= i < |segments| ==>
                 Writes(after[key])[i] == Write(if segments[i].begin > 0 then segments[i].begin - 1 else 0, segments[i].data)
  {
    AllAddedSegments(entries, key, segments);
  }

  lemma {:induction false} AllAddedSegments(entries: Entries, key: Key, segments: seq<Segment>)
    requires key !in entries && segments != []
    ensures var after := AllAdded(entries, key, segments);
            key in after && after[key] == segments && after - {key} == entries
  {
    var n := |segments| - 1;
    if n > 0 {
      AllAddedSegments(entries, key, segments[..n]);
    }
    assert segments == segments[..n] + [segments[n]];
  }

  class ArticleCache {
    var entries: Entries
    var currentSize: nat
    const maxSize: nat

    /** The size is within the limit and not below what is stored. */
    ghost predicate Valid()
      reads this
    {
      Stored(entries) <= currentSize <= maxSize
    }

    ghost predicate Exact()
      reads this
    {
      currentSize == Stored(entries)
    }

    constructor (maxSize: nat)
      ensures Valid() && Exact() && this.maxSize == maxSize && entries == map[]
    {
      this.maxSize, entries, currentSize := maxSize, map[], 0;
      new;
      assert Sizes(map[]) == map[];
    }

    /** Adds a segment; if that is too much, one largest file goes, and that is always enough. */
    method Store(key: Key, segment: Segment)
      requires Valid()
      modifies this
      ensures Valid() && (old(Exact()) ==> Exact())
      ensures var added := Added(old(entries), key, segment);
              if old(currentSize) + |segment.data| <= maxSize
              then entries == added && currentSize == old(currentSize) + |segment.data|
              else Exact() && exists victim :: Largest(added, victim) && entries == added - {victim}
    {
      StoredAdded(entries, key, segment);
      ghost var before := entries;
      currentSize := currentSize + |segment.data|;
      entries := Added(entries, key, segment);
      if currentSize > maxSize {
        ghost var victim := EvictLargest();
        EvictionSuffices(before, key, segment, victim);
      }
    }

    /** The iteration order of the map decides between files of the same size. */
    method EvictLargest() returns (ghost victim: Key)
      requires entries != map[]
      modifies this
      ensures Largest(old(entries), victim) && entries == old(entries) - {victim}
      ensures currentSize == Stored(entries)
    {
      LargestExists(entries);
      var key :| key in entries && Largest(entries, key);
      victim := key;
      entries := entries - {key};
      currentSize := TotalSize();
    }

    method TotalSize() returns (total: nat)
      ensures total == Stored(entries)
    {
      total := 0;
      var rest := entries;
      while rest != map[]
        invariant total + Stored(rest) == Stored(entries)
        decreases |rest|
      {
        var key :| key in rest;
        StoredWithout(rest, key);
        var size := SegmentsSize(rest[key]);
        total := total + size;
        rest := rest - {key};
      }
      assert Sizes(rest) == map[];
    }

    /**
     * Writes out and forgets one file; a file that is not there writes nothing. A write that fails
     * ends it with the rest still counted, so the size stays exact if and only if nothing was left
     * to write.
     */
    method FlushFile(key: Key, failing: nat) returns (ok: bool, writes: seq<Write>)
      requires Valid()
      modifies this
      ensures Valid() && entries == old(entries) - {key}
      ensures key !in old(entries) ==> ok && writes == [] && currentSize == old(currentSize)
      ensures key in old(entries) ==>
                var segments := old(entries)[key];
                var done := if failing < |segments| then failing else |segments|;
                && (ok <==> done == |segments|)
                && writes == Writes(segments[..done]) && currentSize == old(currentSize) - Size(segments[..done])
                && (old(Exact()) ==> (Exact() <==> Size(segments[..done]) == Size(segments)))
    {
      writes, ok := [], true;
      if key in entries {
        StoredWithout(entries, key);
        var segments := entries[key];
        hide Sizes, Stored, Writes, Size;
        assert Size(segments) <= currentSize;
        NoSegments();
        entries := entries - {key};
        for i := 0 to |segments|
          invariant entries == old(entries) - {key} && i <= failing
          invariant writes == Writes(segments[..i])
          invariant currentSize + Size(segments[..i]) == old(currentSize)
        {
          NextSegment(segments, i);
          SizePrefix(segments, i);
          if i == failing {
            return false, writes;
          }
          writes := writes + [Write(Less(segments[i].begin, 1), segments[i].data)];
          currentSize := Less(currentSize, |segments[i].data|);
        }
        assert segments[..|segments|] == segments;
      }
    }
  }

  lemma NoSegments()
    ensures Size([]) == 0 && Writes([]) == []
  {
  }

  lemma NextSegment(segments: seq<Segment>, i: nat)
    requires i < |segments|
    ensures Size(segments[..i + 1]) == Size(segments[..i]) + |segments[i].data| <= Size(segments)
    ensures Writes(segments[..i + 1]) == Writes(segments[..i]) + [Write(Less(segments[i].begin, 1), segments[i].data)]
  {
    assert segments[..i + 1] == segments[..i] + [segments[i]];
    SizePush(segments[..i], segments[i]);
    SizePrefix(segments, i + 1);
  }

  lemma {:induction false} SizePrefix(segments: seq<Segment>, i: nat)
    requires i <= |segments|
    ensures Size(segments[..i]) <= Size(segments)
    decreases |segments| - i
  {
    if i == |segments| {
      assert segments[..i] == segments;
    } else {
      SizePrefix(segments, i + 1);
      assert segments[..i + 1][..i] == segments[..i];
    }
  }

  method SegmentsSize(segments: seq<Segment>) returns (size: nat)
    ensures size == Size(segments)
  {
    size := 0;
    for i := 0 to |segments|
      invariant size == Size(segments[..i])
    {
      assert segments[..i + 1][..i] == segments[..i];
      size := size + |segments[i].data|;
    }
    assert segments[..|segments|] == segments;
  }
}
