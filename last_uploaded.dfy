/** The recently-uploaded listing of src/server/last_uploaded.go: a scan of
    the "LastUploaded" bucket, whose keys are instants written as text, from
    the first key at or after `MIN_KEY` on, bounded by the current instant
    written as text (`max`). The bucket's cursor visits its keys in
    ascending byte order. */
module LastUploaded {
  import opened Records
  import Text
  import Auth
  import opened ServerCore

  /** The lower bound the scan seeks to. */
  const MIN_KEY: string := "1990-01-01T00:00:00Z"

  /** A bolt cursor's order: keys strictly ascending, byte by byte. */
  predicate Ascending(cursor: Cursor)
  {
    forall i, j | 0 <= i < j < |cursor| :: Text.Compare(cursor[i].0, cursor[j].0) < 0
  }

  /** `Seek(min)`: the position of the first key at or after `min`, or the
      end of the cursor. */
  function SeekIndex(cursor: Cursor, min: string): (p: nat)
    ensures p <= |cursor|
    ensures forall i | 0 <= i < p :: Text.Compare(cursor[i].0, min) < 0
    ensures p < |cursor| ==> Text.Compare(cursor[p].0, min) >= 0
    decreases |cursor|
  {
    if cursor == [] || Text.Compare(cursor[0].0, min) >= 0 then 0
    else 1 + SeekIndex(cursor[1..], min)
  }

  /** One listed upload. */
  datatype LastUploadedEntry = LastUploadedEntry(name: string, original: string, deleteKey: string, creationTime: Time)

  function EntryOf(m: Metadata): (e: LastUploadedEntry)
    ensures e.name == m.filename && e.original == m.original
    ensures e.deleteKey == m.deleteKey && e.creationTime == m.creationTime
  {
    LastUploadedEntry(m.filename, m.original, m.deleteKey, m.creationTime)
  }

  /** The entries of the decodable values from position `p` on, for as long
      as the keys sort at or after `max`: the scan as the source writes it. */
  function ScanAtOrAfter(cursor: Cursor, p: nat, max: string): seq<LastUploadedEntry>
    requires p <= |cursor|
    decreases |cursor| - p
  {
    if p == |cursor| || Text.Compare(cursor[p].0, max) < 0 then []
    else
      var rest := ScanAtOrAfter(cursor, p + 1, max);
      if cursor[p].1.Decoded? then [EntryOf(cursor[p].1.meta)] + rest else rest
  }

  /** The entries of the decodable values from position `p` on, for as long
      as the keys sort at or before `max`: the scan the handler is meant to
      do, listing the uploads between `MIN_KEY` and now. */
  function ScanUpTo(cursor: Cursor, p: nat, max: string): seq<LastUploadedEntry>
    requires p <= |cursor|
    decreases |cursor| - p
  {
    if p == |cursor| || Text.Compare(cursor[p].0, max) > 0 then []
    else
      var rest := ScanUpTo(cursor, p + 1, max);
      if cursor[p].1.Decoded? then [EntryOf(cursor[p].1.meta)] + rest else rest
  }

  /** On an ascending cursor, the scan up to `max` from position `p`
      answers exactly the decodable values at or after `p` whose key sorts
      at or before `max`. */
  lemma {:induction false} ScanUpToExact(cursor: Cursor, p: nat, max: string, e: LastUploadedEntry)
    requires Ascending(cursor)
    requires p <= |cursor|
    ensures e in ScanUpTo(cursor, p, max) <==>
      exists j | p <= j < |cursor| ::
        Text.Compare(cursor[j].0, max) <= 0 && cursor[j].1.Decoded? && e == EntryOf(cursor[j].1.meta)
    decreases |cursor| - p
  {
    if p < |cursor| {
      if Text.Compare(cursor[p].0, max) > 0 {
        forall j | p < j < |cursor|
          ensures Text.Compare(cursor[j].0, max) > 0
        {
          if Text.Compare(cursor[j].0, max) <= 0 {
            BeforeOrEqual(cursor[p].0, cursor[j].0, max);
          }
        }
      } else {
        ScanUpToExact(cursor, p + 1, max, e);
      }
    }
  }

  /** `a` before `b`, and `b` at or before `c`, put `a` before `c`. */
  lemma BeforeOrEqual(a: string, b: string, c: string)
    requires Text.Compare(a, b) < 0 && Text.Compare(b, c) <= 0
    ensures Text.Compare(a, c) < 0
  {
    if Text.Compare(b, c) < 0 {
      Text.CompareTransitive(a, b, c);
    }
  }

  /** On an ascending cursor, the keys from the seek position on are
      exactly the keys at or after `min`. */
  lemma SeekIndexExact(cursor: Cursor, min: string, j: nat)
    requires Ascending(cursor)
    requires j < |cursor|
    ensures j >= SeekIndex(cursor, min) <==> Text.Compare(cursor[j].0, min) >= 0
  {
    var p := SeekIndex(cursor, min);
    if j > p {
      if Text.Compare(cursor[j].0, min) < 0 {
        Text.CompareAntisymmetric(cursor[p].0, min);
        Text.CompareAntisymmetric(cursor[j].0, min);
        BeforeOrEqual(min, cursor[p].0, cursor[j].0);
      }
    }
  }

  /** The listing: on an ascending cursor, exactly the decodable values
      whose keys lie between `MIN_KEY` and `max`, both included. */
  lemma ListingExact(cursor: Cursor, max: string, e: LastUploadedEntry)
    requires Ascending(cursor)
    ensures e in ScanUpTo(cursor, SeekIndex(cursor, MIN_KEY), max) <==>
      exists j | 0 <= j < |cursor| ::
        && Text.Compare(cursor[j].0, MIN_KEY) >= 0 && Text.Compare(cursor[j].0, max) <= 0
        && cursor[j].1.Decoded? && e == EntryOf(cursor[j].1.meta)
  {
    var p := SeekIndex(cursor, MIN_KEY);
    ScanUpToExact(cursor, p, max, e);
    forall j | 0 <= j < |cursor|
      ensures j >= p <==> Text.Compare(cursor[j].0, MIN_KEY) >= 0
    {
      SeekIndexExact(cursor, MIN_KEY, j);
    }
  }

  /** The loop as the source writes it: from the seek position, go on while
      the key sorts at or after `max`. */
  method ScanAsWritten(cursor: Cursor, max: string) returns (lastUploaded: seq<LastUploadedEntry>)
    ensures lastUploaded == ScanAtOrAfter(cursor, SeekIndex(cursor, MIN_KEY), max)
  {
    lastUploaded := [];
    var k := SeekIndex(cursor, MIN_KEY);
    while k < |cursor| && Text.Compare(cursor[k].0, max) >= 0
      invariant SeekIndex(cursor, MIN_KEY) <= k <= |cursor|
      invariant lastUploaded + ScanAtOrAfter(cursor, k, max) == ScanAtOrAfter(cursor, SeekIndex(cursor, MIN_KEY), max)
      decreases |cursor| - k
    {
      var v := cursor[k].1;
      if v.Decoded? {
        lastUploaded := lastUploaded + [EntryOf(v.meta)];
      }
      k := k + 1;
    }
  }

  /** The discrepancy: an upload keyed at the end of 1999, listed on June
      1st 2015, lies between `MIN_KEY` and now, yet the scan as written
      stops at once because its key sorts before now. */
  lemma AsWrittenMissesPastUploads(m: Metadata)
    ensures var cursor: Cursor := [("1999-12-31T00:00:00Z", Decoded(m))];
      var max := "2015-06-01 12:00:00 +0000 UTC";
      && Ascending(cursor)
      && ScanAtOrAfter(cursor, SeekIndex(cursor, MIN_KEY), max) == []
      && ScanUpTo(cursor, SeekIndex(cursor, MIN_KEY), max) == [EntryOf(m)]
  {
    var key := "1999-12-31T00:00:00Z";
    var max := "2015-06-01 12:00:00 +0000 UTC";
    var cursor: Cursor := [(key, Decoded(m))];
    assert Text.Compare(key, max) == -1 by {
      assert key[0] == '1' && max[0] == '2';
    }
    assert Text.Compare(key, MIN_KEY) == 1 by {
      assert key[..4] == "1999" && MIN_KEY[..4] == "1990";
      assert Text.Compare(key, MIN_KEY) == Text.Compare(key[1..], MIN_KEY[1..]);
      assert Text.Compare(key[1..], MIN_KEY[1..]) == Text.Compare(key[2..], MIN_KEY[2..]);
      assert Text.Compare(key[2..], MIN_KEY[2..]) == Text.Compare(key[3..], MIN_KEY[3..]);
      assert key[3..][0] == '9' && MIN_KEY[3..][0] == '0';
    }
    assert SeekIndex(cursor, MIN_KEY) == 0;
  }

  datatype ListOutcome = Forbidden | Listed(entries: seq<LastUploadedEntry>)

  /** `LastUploadedHandler.ServeHTTP`, with the bucket's cursor and the
      current instant as text, scanning up to `max` as intended. */
  method ServeList(s: Server, header: string, cursor: Cursor, max: string) returns (out: ListOutcome)
    ensures out == Forbidden <==> !Auth.IsAuthValid(s.config.secretKey, header)
    ensures out.Listed? ==> out.entries == ScanUpTo(cursor, SeekIndex(cursor, MIN_KEY), max)
  {
    var key := header;
    if s.config.secretKey != "" && key != s.config.secretKey {
      return Forbidden;
    }

    var lastUploaded := [];
    var k := SeekIndex(cursor, MIN_KEY);
    while k < |cursor| && Text.Compare(cursor[k].0, max) <= 0
      invariant SeekIndex(cursor, MIN_KEY) <= k <= |cursor|
      invariant lastUploaded + ScanUpTo(cursor, k, max) == ScanUpTo(cursor, SeekIndex(cursor, MIN_KEY), max)
      decreases |cursor| - k
    {
      var v := cursor[k].1;
      if v.Decoded? {
        lastUploaded := lastUploaded + [EntryOf(v.meta)];
      }
      k := k + 1;
    }
    out := Listed(lastUploaded);
  }
}
