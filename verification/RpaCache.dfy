/** The direct-mapped cache of rule results (rpa/rpacache.c). */
module RpaCache {
  import opened RpaGrammar

  const MCACHE_SIZE: nat := 1024
  const MAX_RECORDS: nat := 128

  /** `records` holds the entry's own copy of the records of the call. */
  datatype Entry = Entry(ruleid: nat, top: nat, ret: int, serial: nat, records: seq<Record>)

  datatype Lookup = Miss | Hit(ret: int, records: seq<Record>)

  /** The state of the cache as a value. */
  datatype Cache = Cache(entries: seq<Entry>, serial: nat, disabled: bool)

  function Bucket(top: nat, ruleid: nat): (b: nat)
    ensures b < MCACHE_SIZE
  {
    ((top * 8 % 1024) as bv10 ^ (ruleid / 32 % 1024) as bv10) as nat
  }

  predicate Valid(c: Cache) {
    |c.entries| == MCACHE_SIZE
  }

  predicate Live(c: Cache, e: Entry, top: nat, ruleid: nat) {
    !c.disabled && e.serial == c.serial && e.ruleid == ruleid && e.top == top
  }

  function Find(c: Cache, top: nat, ruleid: nat): Lookup
    requires Valid(c)
  {
    var e := c.entries[Bucket(top, ruleid)];
    if Live(c, e, top, ruleid) then Hit(e.ret, e.records) else Miss
  }

  /** A call that matched but left many records is not kept, and does not disturb the entry it would replace. */
  predicate Keeps(c: Cache, ret: int, records: seq<Record>) {
    !c.disabled && !(ret > 0 && |records| > MAX_RECORDS)
  }

  function Stored(c: Cache, top: nat, ruleid: nat, ret: int, records: seq<Record>): (r: Cache)
    requires Valid(c)
    ensures Valid(r)
  {
    if Keeps(c, ret, records)
    then c.(entries := c.entries[Bucket(top, ruleid) := Entry(ruleid, top, ret, c.serial, records)])
    else c
  }

  /** What a lookup returns after a store: the new result for its own key, nothing for a key that
      collides with it, and for every other key what it returned before. */
  lemma FindStored(c: Cache, top: nat, ruleid: nat, ret: int, records: seq<Record>, top': nat, ruleid': nat)
    requires Valid(c)
    ensures var r := Find(Stored(c, top, ruleid, ret, records), top', ruleid');
      if c.disabled || (ret > 0 && |records| > 128) then r == Find(c, top', ruleid')
      else if top' == top && ruleid' == ruleid then r == Hit(ret, records)
      else if Bucket(top', ruleid') == Bucket(top, ruleid) then r == Miss
      else r == Find(c, top', ruleid')
  {
    hide Bucket;
  }

  /** No entry is newer than the cache. */
  predicate Dated(c: Cache) {
    Valid(c) && forall b :: 0 <= b < MCACHE_SIZE ==> c.entries[b].serial <= c.serial
  }

  class RpaCache {
    const entry: array<Entry>
    var serial: nat
    var disabled: bool

    ghost predicate Valid()
      reads this, entry
    {
      entry.Length == MCACHE_SIZE
    }

    ghost function Value(): (c: Cache)
      reads this, entry
    {
      Cache(entry[..], serial, disabled)
    }

    constructor ()
      ensures Valid() && fresh(entry) && Dated(Value()) && !disabled && serial == 0
    {
      entry := new Entry[MCACHE_SIZE](_ => Entry(0, 0, 0, 0, []));
      serial := 0;
      disabled := false;
    }

    /** Afterwards every lookup misses. */
    method Invalidate()
      requires Valid() && Dated(Value())
      modifies this`serial
      ensures Valid() && Dated(Value()) && Value() == old(Value()).(serial := old(serial) + 1)
      ensures forall top: nat, ruleid: nat :: Find(Value(), top, ruleid).Miss?
    {
      hide Bucket;
      serial := serial + 1;
      assert forall b :: 0 <= b < MCACHE_SIZE ==> entry[..][b].serial <= old(serial);
    }

    method Disable(disable: bool)
      requires Valid()
      modifies this`disabled
      ensures Value() == old(Value()).(disabled := disable)
    {
      disabled := disable;
    }

    method Set(top: nat, ruleid: nat, ret: int, records: seq<Record>, startrec: nat, size: nat)
      requires Valid() && startrec + size <= |records|
      modifies entry
      ensures Valid() && Value() == Stored(old(Value()), top, ruleid, ret, records[startrec..startrec + size])
      ensures old(Dated(Value())) ==> Dated(Value())
    {
      hide Bucket;
      var bucket := Bucket(top, ruleid);
      if disabled { return; }
      if ret > 0 && size > MAX_RECORDS { return; }
      var cacherecords: seq<Record> := [];
      var i := 0;
      while i < size
        invariant i <= size && cacherecords == records[startrec..startrec + i]
      {
        cacherecords := cacherecords + [records[startrec + i]];
        i := i + 1;
      }
      entry[bucket] := Entry(ruleid, top, ret, serial, cacherecords);
      assert Value().entries == old(Value()).entries[bucket := Entry(ruleid, top, ret, serial, cacherecords)];
    }

    method Search(top: nat, ruleid: nat) returns (r: Lookup)
      requires Valid()
      ensures r == Find(Value(), top, ruleid)
    {
      var bucket := Bucket(top, ruleid);
      if disabled { return Miss; }
      if entry[bucket].serial == serial && entry[bucket].ruleid == ruleid && entry[bucket].top == top {
        return Hit(entry[bucket].ret, entry[bucket].records);
      }
      return Miss;
    }
  }
}
