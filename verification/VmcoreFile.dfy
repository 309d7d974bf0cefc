// The flattened dump file of dump.c: a log of (offset, size, data) records, read back by replaying
// them in order.

module VmcoreFiles {
  import opened Basics

  datatype Record = Record(offset: nat, data: seq<Byte>)

  predicate Hits(r: Record, pos: nat) {
    r.offset <= pos < r.offset + |r.data|
  }

  /** The byte a replay of the log leaves at a position: that of the last record that hits it. */
  function ByteAt(log: seq<Record>, pos: nat): Option<Byte> {
    if log == [] then None
    else
      var r := log[|log| - 1];
      if Hits(r, pos) then Some(r.data[pos - r.offset]) else ByteAt(log[..|log| - 1], pos)
  }

  lemma AppendAt(log: seq<Record>, r: Record, pos: nat)
    ensures ByteAt(log + [r], pos) == if Hits(r, pos) then Some(r.data[pos - r.offset]) else ByteAt(log, pos)
  {
    assert (log + [r])[..|log|] == log;
  }

  /** The replayed file holds these bytes from this offset on. */
  ghost predicate Holds(log: seq<Record>, offset: nat, bytes: seq<Byte>) {
    forall i: nat :: i < |bytes| ==> ByteAt(log, offset + i) == Some(bytes[i])
  }

  predicate Apart(offset: nat, size: nat, offset': nat, size': nat) {
    offset + size <= offset' || offset' + size' <= offset
  }

  /** A record elsewhere leaves the bytes alone. */
  lemma HoldsElsewhere(log: seq<Record>, r: Record, offset: nat, bytes: seq<Byte>)
    requires Holds(log, offset, bytes) && Apart(offset, |bytes|, r.offset, |r.data|)
    ensures Holds(log + [r], offset, bytes)
  {
    forall i: nat | i < |bytes| ensures ByteAt(log + [r], offset + i) == Some(bytes[i]) {
      AppendAt(log, r, offset + i);
    }
  }

  /** A record that continues a run of bytes extends it. */
  lemma HoldsMore(log: seq<Record>, r: Record, offset: nat, bytes: seq<Byte>)
    requires Holds(log, offset, bytes) && r.offset == offset + |bytes|
    ensures Holds(log + [r], offset, bytes + r.data)
  {
    forall i: nat | i < |bytes + r.data| ensures ByteAt(log + [r], offset + i) == Some((bytes + r.data)[i]) {
      AppendAt(log, r, offset + i);
    }
  }

  lemma HoldsPart(log: seq<Record>, offset: nat, bytes: seq<Byte>, from: nat, to: nat)
    requires Holds(log, offset, bytes) && from <= to <= |bytes|
    ensures Holds(log, offset + from, bytes[from..to])
  {
    forall i: nat | i < to - from ensures ByteAt(log, offset + from + i) == Some(bytes[from..to][i]) {
      assert ByteAt(log, offset + (from + i)) == Some(bytes[from + i]);
    }
  }

  /** The log only ever grows, and only by records inside a range: nothing outside is touched. */
  ghost predicate Touches(log: seq<Record>, log': seq<Record>, lo: nat, hi: nat) {
    forall pos: nat :: pos < lo || hi <= pos ==> ByteAt(log', pos) == ByteAt(log, pos)
  }

  lemma TouchesOne(log: seq<Record>, r: Record, lo: nat, hi: nat)
    requires lo <= r.offset && r.offset + |r.data| <= hi
    ensures Touches(log, log + [r], lo, hi)
  {
    forall pos: nat | pos < lo || hi <= pos ensures ByteAt(log + [r], pos) == ByteAt(log, pos) {
      AppendAt(log, r, pos);
    }
  }

  lemma TouchesNone(log: seq<Record>, lo: nat, hi: nat)
    ensures Touches(log, log, lo, hi)
  {
  }

  lemma TouchesBoth(log0: seq<Record>, log1: seq<Record>, log2: seq<Record>, a: nat, b: nat, c: nat, d: nat, lo: nat,
      hi: nat)
    requires Touches(log0, log1, a, b) && Touches(log1, log2, c, d) && lo <= a && b <= hi && lo <= c && d <= hi
    ensures Touches(log0, log2, lo, hi)
  {
    forall pos: nat | pos < lo || hi <= pos ensures ByteAt(log2, pos) == ByteAt(log0, pos) {
      assert ByteAt(log1, pos) == ByteAt(log0, pos);
    }
  }

  lemma TouchesHolds(log: seq<Record>, log': seq<Record>, lo: nat, hi: nat, offset: nat, bytes: seq<Byte>)
    requires Touches(log, log', lo, hi) && Holds(log, offset, bytes)
    requires offset + |bytes| <= lo || hi <= offset
    ensures Holds(log', offset, bytes)
  {
  }
}
