/** The background sweep of src/server/clean_job.go: every record of the
    "Metadata" bucket, visited once in cursor order, is expired when its
    expiration instant is set and lies strictly before now. The cursor is a
    snapshot taken when the sweep starts. */
module CleanJob {
  import opened Records
  import Storage
  import opened ServerCore

  /** The sweep's test: an expiration instant is set and has passed. */
  predicate SweepDead(m: Metadata, now: Time)
  {
    m.expirationTime != ZERO_TIME && m.expirationTime < now
  }

  /** The records the sweep expires, in cursor order: the decodable ones
      that are dead. */
  function SweepSelection(cursor: Cursor, now: Time): (expired: seq<Metadata>)
    ensures |expired| <= |cursor|
    decreases |cursor|
  {
    if cursor == [] then []
    else
      var previous := SweepSelection(cursor[..|cursor| - 1], now);
      var last := cursor[|cursor| - 1].1;
      if last.Decoded? && SweepDead(last.meta, now) then previous + [last.meta] else previous
  }

  /** The file names of some records. */
  function Names(ms: seq<Metadata>): (names: set<string>)
    ensures forall i | 0 <= i < |ms| :: ms[i].filename in names
    ensures forall f | f in names :: exists i | 0 <= i < |ms| :: ms[i].filename == f
  {
    set i | 0 <= i < |ms| :: ms[i].filename
  }

  lemma NamesAppend(ms: seq<Metadata>, m: Metadata)
    ensures Names(ms + [m]) == Names(ms) + {m.filename}
  {
    var ext := ms + [m];
    forall f | f in Names(ext)
      ensures f in Names(ms) + {m.filename}
    {
      var i :| 0 <= i < |ext| && ext[i].filename == f;
      if i < |ms| {
        assert ext[i] == ms[i];
      }
    }
    forall f | f in Names(ms) + {m.filename}
      ensures f in Names(ext)
    {
      if f in Names(ms) {
        var i :| 0 <= i < |ms| && ms[i].filename == f;
        assert ext[i] == ms[i];
      } else {
        assert ext[|ms|] == m;
      }
    }
  }

  lemma MapRemoveTwice<K, V>(m: map<K, V>, a: set<K>, b: set<K>)
    ensures (m - a) - b == m - (a + b)
  {
  }

  /** The backend after removing the blobs of `ms` in order, `fault` saying
      which removals fail. */
  function RemoveAll(cfg: Config, b: Storage.Backend, ms: seq<Metadata>, fault: string -> bool): Storage.Backend
    decreases |ms|
  {
    if ms == [] then b
    else
      var last := ms[|ms| - 1];
      Storage.RemoveFile(cfg, RemoveAll(cfg, b, ms[..|ms| - 1], fault), last.filename, fault(last.filename)).0
  }

  /** Extending the cursor by one position extends the selection by that
      position's record when it is decodable and dead. */
  lemma SweepSelectionStep(cursor: Cursor, i: nat, now: Time)
    requires i < |cursor|
    ensures SweepSelection(cursor[..i + 1], now) ==
      if cursor[i].1.Decoded? && SweepDead(cursor[i].1.meta, now)
      then SweepSelection(cursor[..i], now) + [cursor[i].1.meta]
      else SweepSelection(cursor[..i], now)
  {
    assert cursor[..i + 1][..i] == cursor[..i];
  }

  /** Removing one more blob after the others. */
  lemma RemoveAllStep(cfg: Config, b: Storage.Backend, ms: seq<Metadata>, m: Metadata, fault: string -> bool)
    ensures RemoveAll(cfg, b, ms + [m], fault) ==
      Storage.RemoveFile(cfg, RemoveAll(cfg, b, ms, fault), m.filename, fault(m.filename)).0
  {
    assert (ms + [m])[..|ms|] == ms;
  }

  /** A record is expired by the sweep exactly when the cursor holds it
      decodable and it is dead. */
  lemma {:induction false} SweepSelectionExact(cursor: Cursor, now: Time, m: Metadata)
    ensures m in SweepSelection(cursor, now) <==>
      SweepDead(m, now) && exists i | 0 <= i < |cursor| :: cursor[i].1 == Decoded(m)
    decreases |cursor|
  {
    if cursor != [] {
      var init := cursor[..|cursor| - 1];
      SweepSelectionExact(init, now, m);
      if m in SweepSelection(cursor, now) && m !in SweepSelection(init, now) {
        assert cursor[|cursor| - 1].1 == Decoded(m);
      }
      if SweepDead(m, now) && exists i | 0 <= i < |cursor| :: cursor[i].1 == Decoded(m) {
        var i :| 0 <= i < |cursor| && cursor[i].1 == Decoded(m);
        if i < |cursor| - 1 {
          assert init[i] == cursor[i];
        }
      }
      if exists i | 0 <= i < |init| :: init[i].1 == Decoded(m) {
        var i :| 0 <= i < |init| && init[i].1 == Decoded(m);
        assert cursor[i] == init[i];
      }
    }
  }

  /** A record that never expires is never swept. */
  lemma NeverExpiringKept(cursor: Cursor, now: Time, m: Metadata)
    requires m.expirationTime == ZERO_TIME
    ensures m !in SweepSelection(cursor, now)
  {
    SweepSelectionExact(cursor, now, m);
  }

  /** After the selection of a snapshot is removed from a store whose
      records sit under their own file names, no decodable record left in
      it is dead. */
  lemma NoDeadRecordLeft(bucket: map<string, Entry>, cursor: Cursor, now: Time)
    requires IsSnapshot(bucket, cursor)
    requires forall k | k in bucket && bucket[k].Decoded? :: bucket[k].meta.filename == k
    ensures var left := bucket - Names(SweepSelection(cursor, now));
      forall k | k in left && left[k].Decoded? :: !SweepDead(left[k].meta, now)
  {
    var expired := SweepSelection(cursor, now);
    var left := bucket - Names(expired);
    forall k | k in left && left[k].Decoded?
      ensures !SweepDead(left[k].meta, now)
    {
      var m := bucket[k].meta;
      var i :| 0 <= i < |cursor| && cursor[i] == (k, bucket[k]);
      assert m.filename == k && k !in Names(expired);
      assert m !in expired;
      SweepSelectionExact(cursor, now, m);
    }
  }

  /** `CleanJob.Run` over the cursor snapshot. Every selected record is
      expired, whether or not its backend removal fails (`fault` on its
      file name), and the sweep goes on with the next one. */
  method Run(s: Server, cursor: Cursor, now: Time, fault: string -> bool) returns (expired: seq<Metadata>, somethingChanged: bool)
    modifies s`metaBucket, s`metadata, s`backend
    ensures expired == SweepSelection(cursor, now)
    ensures somethingChanged <==> |expired| > 0
    ensures s.metaBucket == old(s.metaBucket) - Names(expired)
    ensures s.metadata == old(s.metadata).(data := old(s.metadata.data) - Names(expired))
    ensures s.backend == RemoveAll(s.config, old(s.backend), expired, fault)
    ensures old(s.Valid()) ==> s.Valid()
    ensures old(s.Valid()) && IsSnapshot(old(s.metaBucket), cursor) ==>
      forall k | k in s.metaBucket && s.metaBucket[k].Decoded? :: !SweepDead(s.metaBucket[k].meta, now)
  {
    somethingChanged := false;
    expired := [];
    ghost var removed: set<string> := {};
    var i := 0;
    while i < |cursor|
      invariant 0 <= i <= |cursor|
      invariant expired == SweepSelection(cursor[..i], now)
      invariant somethingChanged <==> |expired| > 0
      invariant removed == Names(expired)
      invariant s.metaBucket == old(s.metaBucket) - removed
      invariant s.metadata == old(s.metadata).(data := old(s.metadata.data) - removed)
      invariant s.backend == RemoveAll(s.config, old(s.backend), expired, fault)
      invariant old(s.Valid()) ==> s.Valid()
    {
      SweepSelectionStep(cursor, i, now);
      var (_, v) := cursor[i];
      if v.Decoded? {
        var entry := v.meta;
        if SweepDead(entry, now) {
          var _ := s.Expire(entry, fault(entry.filename));
          somethingChanged := true;
          NamesAppend(expired, entry);
          RemoveAllStep(s.config, old(s.backend), expired, entry, fault);
          MapRemoveTwice(old(s.metaBucket), removed, {entry.filename});
          MapRemoveTwice(old(s.metadata.data), removed, {entry.filename});
          removed := removed + {entry.filename};
          expired := expired + [entry];
        }
      }
      i := i + 1;
    }
    assert cursor[..i] == cursor;
    if old(s.Valid()) && IsSnapshot(old(s.metaBucket), cursor) {
      NoDeadRecordLeft(old(s.metaBucket), cursor, now);
    }
  }
}
