/** The tag search of src/server/search_tags.go: the query is split on ','
    and each piece trimmed of spaces; every decodable record of the
    "Metadata" bucket that carries at least one of the query tags is
    answered, in cursor order. */
module SearchTags {
  import opened Records
  import Text
  import Auth
  import opened ServerCore

  /** `a` and `t` share an element (an exact, case-sensitive match). */
  predicate Intersects(a: seq<string>, t: seq<string>)
  {
    exists i, j | 0 <= i < |a| && 0 <= j < |t| :: a[i] == t[j]
  }

  /** `stringArrayContainsOne`: the nested scan returns at the first pair
      of equal elements. */
  method StringArrayContainsOne(values: seq<string>, tags: seq<string>) returns (found: bool)
    ensures found <==> Intersects(values, tags)
  {
    for i := 0 to |values|
      invariant forall i', j | 0 <= i' < i && 0 <= j < |tags| :: values[i'] != tags[j]
    {
      for j := 0 to |tags|
        invariant forall j' | 0 <= j' < j :: values[i] != tags[j']
      {
        if values[i] == tags[j] {
          return true;
        }
      }
    }
    return false;
  }

  /** No element is shared with an empty list. */
  lemma IntersectsEmpty(a: seq<string>, t: seq<string>)
    requires a == [] || t == []
    ensures !Intersects(a, t)
  {
  }

  /** Sharing an element does not depend on the order of the arguments. */
  lemma IntersectsSymmetric(a: seq<string>, t: seq<string>)
    ensures Intersects(a, t) <==> Intersects(t, a)
  {
    if Intersects(a, t) {
      var i, j :| 0 <= i < |a| && 0 <= j < |t| && a[i] == t[j];
      assert t[j] == a[i];
    }
    if Intersects(t, a) {
      var j, i :| 0 <= j < |t| && 0 <= i < |a| && t[j] == a[i];
      assert a[i] == t[j];
    }
  }

  /** The query tags of a "tags" parameter: its pieces between commas,
      each trimmed of surrounding spaces. */
  function QueryTags(param: string): (tags: seq<string>)
    ensures |tags| == |Text.Split(param, ',')|
    ensures forall i | 0 <= i < |tags| :: tags[i] == Text.Trim(Text.Split(param, ',')[i], ' ')
    ensures forall i | 0 <= i < |tags| :: ',' !in tags[i]
    ensures forall i | 0 <= i < |tags| :: |tags[i]| == 0 || (tags[i][0] != ' ' && tags[i][|tags[i]| - 1] != ' ')
  {
    var pieces := Text.Split(param, ',');
    seq(|pieces|, i requires 0 <= i < |pieces| => Text.Trim(pieces[i], ' '))
  }

  /** One result: the fields of the record the client gets back. */
  datatype SearchTagsEntry = SearchTagsEntry(
    filename: string,
    original: string,
    deleteKey: string,
    creationTime: Time,
    expirationTime: Time,
    tags: seq<string>)

  function EntryOf(m: Metadata): (e: SearchTagsEntry)
    ensures e.filename == m.filename && e.original == m.original && e.deleteKey == m.deleteKey
    ensures e.creationTime == m.creationTime && e.expirationTime == m.expirationTime && e.tags == m.tags
  {
    SearchTagsEntry(m.filename, m.original, m.deleteKey, m.creationTime, m.expirationTime, m.tags)
  }

  /** The results for `query`, in cursor order. */
  function SearchResults(cursor: Cursor, query: seq<string>): (results: seq<SearchTagsEntry>)
    ensures |results| <= |cursor|
    decreases |cursor|
  {
    if cursor == [] then []
    else
      var previous := SearchResults(cursor[..|cursor| - 1], query);
      var last := cursor[|cursor| - 1].1;
      if last.Decoded? && Intersects(last.meta.tags, query) then previous + [EntryOf(last.meta)] else previous
  }

  /** A result is answered exactly when some decodable record of the
      cursor shares a tag with the query and gives that result. */
  lemma {:induction false} SearchResultsExact(cursor: Cursor, query: seq<string>, e: SearchTagsEntry)
    ensures e in SearchResults(cursor, query) <==>
      exists i | 0 <= i < |cursor| ::
        cursor[i].1.Decoded? && Intersects(cursor[i].1.meta.tags, query) && e == EntryOf(cursor[i].1.meta)
    decreases |cursor|
  {
    if cursor != [] {
      var init := cursor[..|cursor| - 1];
      SearchResultsExact(init, query, e);
      if exists i | 0 <= i < |cursor| ::
           cursor[i].1.Decoded? && Intersects(cursor[i].1.meta.tags, query) && e == EntryOf(cursor[i].1.meta) {
        var i :| 0 <= i < |cursor| &&
                 cursor[i].1.Decoded? && Intersects(cursor[i].1.meta.tags, query) && e == EntryOf(cursor[i].1.meta);
        if i < |cursor| - 1 {
          assert init[i] == cursor[i];
        }
      }
      if exists i | 0 <= i < |init| ::
           init[i].1.Decoded? && Intersects(init[i].1.meta.tags, query) && e == EntryOf(init[i].1.meta) {
        var i :| 0 <= i < |init| &&
                 init[i].1.Decoded? && Intersects(init[i].1.meta.tags, query) && e == EntryOf(init[i].1.meta);
        assert cursor[i] == init[i];
      }
    }
  }

  /** On a snapshot of the store, the results are exactly the matching
      decodable records of the store. */
  lemma SearchResultsOfStore(bucket: map<string, Entry>, cursor: Cursor, query: seq<string>, e: SearchTagsEntry)
    requires IsSnapshot(bucket, cursor)
    ensures e in SearchResults(cursor, query) <==>
      exists k | k in bucket :: bucket[k].Decoded? && Intersects(bucket[k].meta.tags, query) && e == EntryOf(bucket[k].meta)
  {
    SearchResultsExact(cursor, query, e);
    if exists k | k in bucket :: bucket[k].Decoded? && Intersects(bucket[k].meta.tags, query) && e == EntryOf(bucket[k].meta) {
      var k :| k in bucket && bucket[k].Decoded? && Intersects(bucket[k].meta.tags, query) && e == EntryOf(bucket[k].meta);
      var i :| 0 <= i < |cursor| && cursor[i] == (k, bucket[k]);
      assert cursor[i].1.Decoded? && Intersects(cursor[i].1.meta.tags, query) && e == EntryOf(cursor[i].1.meta);
    }
    if e in SearchResults(cursor, query) {
      var i :| 0 <= i < |cursor| &&
               cursor[i].1.Decoded? && Intersects(cursor[i].1.meta.tags, query) && e == EntryOf(cursor[i].1.meta);
      var k := cursor[i].0;
      assert k in bucket && bucket[k] == cursor[i].1;
    }
  }

  datatype SearchOutcome = Forbidden | BadRequest | Found(results: seq<SearchTagsEntry>)

  /** `SearchTagsHandler.ServeHTTP`, with `tagsField` the values of the
      "tags" parameter and `cursor` the "Metadata" bucket in cursor order. */
  method ServeSearch(s: Server, header: string, tagsField: seq<string>, cursor: Cursor) returns (out: SearchOutcome)
    ensures out == Forbidden <==> !Auth.IsAuthValid(s.config.secretKey, header)
    ensures out == BadRequest <==>
      Auth.IsAuthValid(s.config.secretKey, header) && (|tagsField| == 0 || |tagsField[0]| == 0)
    ensures out.Found? ==> |tagsField| > 0 && out.results == SearchResults(cursor, QueryTags(tagsField[0]))
    ensures out.Found? && IsSnapshot(s.metaBucket, cursor) ==>
      forall e :: e in out.results <==>
        exists k | k in s.metaBucket :: && s.metaBucket[k].Decoded?
                                         && Intersects(s.metaBucket[k].meta.tags, QueryTags(tagsField[0]))
                                         && e == EntryOf(s.metaBucket[k].meta)
  {
    var key := header;
    if s.config.secretKey != "" && key != s.config.secretKey {
      return Forbidden;
    }
    if |tagsField| == 0 || |tagsField[0]| == 0 {
      return BadRequest;
    }

    var tagParam := tagsField[0];
    var pieces := Text.Split(tagParam, ',');
    var tags := pieces;
    for i := 0 to |tags|
      invariant |tags| == |pieces|
      invariant forall k | 0 <= k < i :: tags[k] == Text.Trim(pieces[k], ' ')
      invariant forall k | i <= k < |tags| :: tags[k] == pieces[k]
    {
      tags := tags[i := Text.Trim(tags[i], ' ')];
    }
    assert tags == QueryTags(tagParam);

    var results := [];
    for i := 0 to |cursor|
      invariant results == SearchResults(cursor[..i], tags)
    {
      assert cursor[..i + 1][..i] == cursor[..i];
      var (_, v) := cursor[i];
      if v.Decoded? {
        var metadata := v.meta;
        var contains := StringArrayContainsOne(metadata.tags, tags);
        if contains {
          results := results + [EntryOf(metadata)];
        }
      }
    }
    assert cursor[..|cursor|] == cursor;
    out := Found(results);
    if IsSnapshot(s.metaBucket, cursor) {
      forall e
        ensures e in results <==>
          exists k | k in s.metaBucket :: && s.metaBucket[k].Decoded?
                                           && Intersects(s.metaBucket[k].meta.tags, tags)
                                           && e == EntryOf(s.metaBucket[k].meta)
      {
        SearchResultsOfStore(s.metaBucket, cursor, tags, e);
      }
    }
  }
}
